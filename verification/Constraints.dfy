/** From the constraints of a request to the nodes they select: the constraints are compiled
    to predicate messages, the messages to search predicates, and the iterators run those. */
module Constraints {
  import opened Graph
  import opened Ordering
  import opened Cursors

  /** A constraint operand. `JOther` is any JSON value that cannot become a property. */
  datatype Json = JInt(i: int) | JBool(b: bool) | JReal(r: real) | JString(s: string) | JDate(t: int) | JBlob(s: string) | JOther

  /** `[op, value]` or `[op, value, op, value]` on one property. */
  datatype Constraint =
    | Scalar(key: Key, op: string, v: Json)
    | Range(key: Key, op1: string, v1: Json, op2: string, v2: Json)

  /** The predicate message; an operator that is never set stays at `DontCare`. */
  datatype Message = Message(key: Key, op: Op, v1: Value, v2: Option<Value>)

  datatype Compiled = Compiled(msgs: seq<Message>) | Failed

  const DELETION: Key := "_deletion"

  function ToProperty(j: Json): Option<Value> {
    match j
    case JInt(i) => Some(IntV(i))
    case JBool(b) => Some(BoolV(b))
    case JReal(r) => Some(RealV(r))
    case JString(s) => Some(StringV(s))
    case JDate(t) => Some(TimeV(t))
    case JBlob(s) => Some(StringV(s))
    case JOther => None
  }

  function ScalarOp(op: string): Op {
    if op == ">" then Gt else if op == ">=" then Ge else if op == "<" then Lt
    else if op == "<=" then Le else if op == "==" then Eq else if op == "!=" then Ne else DontCare
  }

  function RangeOp(op1: string, op2: string): Op {
    if op1 == ">" && op2 == "<" then GtLt
    else if op1 == ">=" && op2 == "<" then GeLt
    else if op1 == ">" && op2 == "<=" then GtLe
    else if op1 == ">=" && op2 == "<=" then GeLe
    else DontCare
  }

  /** One round of the parser: a constraint on `_deletion` adds no message. */
  function CompileOne(c: Constraint): Compiled {
    if c.key == DELETION then Compiled([])
    else match c
      case Scalar(k, op, v) =>
        (match ToProperty(v) case None => Failed case Some(x) => Compiled([Message(k, ScalarOp(op), x, None)]))
      case Range(k, op1, v1, op2, v2) =>
        (match (ToProperty(v1), ToProperty(v2))
         case (Some(x), Some(y)) => Compiled([Message(k, RangeOp(op1, op2), x, Some(y))])
         case _ => Failed)
  }

  /** The messages of the first `n` constraints. */
  function CompileAll(cs: seq<Constraint>, n: nat): Compiled
    requires n <= |cs|
  {
    if n == 0 then Compiled([])
    else match (CompileAll(cs, n - 1), CompileOne(cs[n - 1]))
      case (Compiled(a), Compiled(b)) => Compiled(a + b)
      case _ => Failed
  }

  lemma {:induction false} FailureStays(cs: seq<Constraint>, m: nat, n: nat)
    requires m <= n <= |cs| && CompileAll(cs, m) == Failed
    ensures CompileAll(cs, n) == Failed
  {
    if m < n { FailureStays(cs, m, n - 1); }
  }

  /** The search predicate of a message: the shape depends on the operator's number. */
  function Term(m: Message): Predicate {
    if m.op == DontCare then Present(m.key)
    else if Code(m.op) < Code(GeLe) then Compare(m.key, m.op, m.v1)
    else Between(m.key, m.op, m.v1, if m.v2.Some? then m.v2.value else m.v1)
  }

  function Terms(msgs: seq<Message>): (r: seq<Predicate>)
    ensures |r| == |msgs|
    ensures forall i :: 0 <= i < |r| ==> r[i] == Term(msgs[i])
  {
    if msgs == [] then [] else Terms(msgs[..|msgs| - 1]) + [Term(msgs[|msgs| - 1])]
  }

  // ------------------------------------------------------ what constraints mean

  predicate Above(op: string, bound: Value, x: Value) {
    if op == ">" then Less(bound, x) else AtMost(bound, x)
  }

  predicate Below(op: string, bound: Value, x: Value) {
    if op == "<" then Less(x, bound) else AtMost(x, bound)
  }

  /** The meaning of a constraint, read off the request: `_deletion` says nothing, an unknown
      operator only asks for the property, and the rest compare it as written. */
  ghost predicate Meets(p: Properties, c: Constraint) {
    c.key == DELETION ||
    (c.key in p &&
     match c
     case Scalar(k, op, v) =>
       ToProperty(v).Some? &&
       (var x := ToProperty(v).value;
        && (op in {">", ">="} ==> Above(op, x, p[k]))
        && (op in {"<", "<="} ==> Below(op, x, p[k]))
        && (op == "==" ==> p[k] == x)
        && (op == "!=" ==> p[k] != x))
     case Range(k, op1, v1, op2, v2) =>
       ToProperty(v1).Some? && ToProperty(v2).Some? &&
       (op1 in {">", ">="} && op2 in {"<", "<="} ==>
          Above(op1, ToProperty(v1).value, p[k]) && Below(op2, ToProperty(v2).value, p[k])))
  }

  ghost predicate MeetsAll(p: Properties, cs: seq<Constraint>, n: nat)
    requires n <= |cs|
  {
    forall i :: 0 <= i < n ==> Meets(p, cs[i])
  }

  lemma CompileOneMeans(c: Constraint, p: Properties)
    requires CompileOne(c).Compiled?
    ensures PassesAll(Terms(CompileOne(c).msgs), p) <==> Meets(p, c)
  {
    var msgs := CompileOne(c).msgs;
    if c.key != DELETION {
      assert PassesAll(Terms(msgs), p) <==> Passes(Term(msgs[0]), p) by {
        assert Terms(msgs)[0] == Term(msgs[0]);
      }
    }
  }

  lemma PassesAppend(a: seq<Message>, b: seq<Message>, p: Properties)
    ensures PassesAll(Terms(a + b), p) <==> PassesAll(Terms(a), p) && PassesAll(Terms(b), p)
  {
    var t := Terms(a + b);
    assert forall i :: 0 <= i < |a| ==> t[i] == Terms(a)[i];
    assert forall i :: 0 <= i < |b| ==> t[|a| + i] == Terms(b)[i];
    if PassesAll(Terms(a), p) && PassesAll(Terms(b), p) {
      forall i | 0 <= i < |t| ensures Passes(t[i], p) {
        if i >= |a| { assert t[i] == Terms(b)[i - |a|]; }
      }
    }
  }

  /** The compiled predicates hold of a node exactly when it meets every constraint. */
  lemma {:induction false} CompileMeans(cs: seq<Constraint>, n: nat, p: Properties)
    requires n <= |cs| && CompileAll(cs, n).Compiled?
    ensures PassesAll(Terms(CompileAll(cs, n).msgs), p) <==> MeetsAll(p, cs, n)
  {
    if n > 0 {
      CompileMeans(cs, n - 1, p);
      CompileOneMeans(cs[n - 1], p);
      PassesAppend(CompileAll(cs, n - 1).msgs, CompileOne(cs[n - 1]).msgs, p);
    }
  }

  /** An operand that cannot become a property value. */
  predicate Unusable(c: Constraint) {
    c.key != DELETION &&
    match c
    case Scalar(_, _, v) => v.JOther?
    case Range(_, _, v1, _, v2) => v1.JOther? || v2.JOther?
  }

  /** The parser's loop. It fails exactly on an unusable operand, and otherwise what it
      produces holds of a node's properties exactly when they meet every constraint. */
  method ParseQueryConstraints(cs: seq<Constraint>) returns (r: Compiled)
    ensures r == CompileAll(cs, |cs|)
    ensures r.Failed? <==> exists i :: 0 <= i < |cs| && Unusable(cs[i])
    ensures r.Compiled? ==> forall p: Properties :: PassesAll(Terms(r.msgs), p) <==> MeetsAll(p, cs, |cs|)
  {
    var msgs := [];
    for i := 0 to |cs|
      invariant CompileAll(cs, i) == Compiled(msgs)
      invariant forall k :: 0 <= k < i ==> !Unusable(cs[k])
    {
      var one := CompileOne(cs[i]);
      if one.Failed? {
        FailureStays(cs, i + 1, |cs|);
        return Failed;
      }
      msgs := msgs + one.msgs;
    }
    r := Compiled(msgs);
    forall p: Properties ensures PassesAll(Terms(msgs), p) <==> MeetsAll(p, cs, |cs|) {
      CompileMeans(cs, |cs|, p);
    }
  }

  // --------------------------------------------------- what iterators yield

  /** The nodes of `xs` with a tag (0 for any) that meet every constraint, in order. */
  ghost function Satisfying(g: Graph, tag: Tag, cs: seq<Constraint>, xs: seq<NodeId>): seq<NodeId> {
    if xs == [] then []
    else
      (if (tag == ANY_TAG || TagOf(g, xs[0]) == tag) && MeetsAll(PropsOf(g, xs[0]), cs, |cs|) then [xs[0]] else [])
      + Satisfying(g, tag, cs, xs[1..])
  }

  lemma {:induction false} SelectIsSatisfying(g: Graph, tag: Tag, cs: seq<Constraint>, xs: seq<NodeId>)
    requires CompileAll(cs, |cs|).Compiled?
    ensures Select(g, Filter(tag, Terms(CompileAll(cs, |cs|).msgs)), xs) == Satisfying(g, tag, cs, xs)
  {
    if xs != [] {
      SelectIsSatisfying(g, tag, cs, xs[1..]);
      CompileMeans(cs, |cs|, PropsOf(g, xs[0]));
    }
  }

  /** The neighbours of each start node that satisfy the constraints, start by start. */
  ghost function SatisfyingFrom(g: Graph, tag: Tag, cs: seq<Constraint>, edgePreds: seq<Predicate>,
                                dir: Direction, edgeTag: Tag, from: seq<NodeId>): seq<NodeId> {
    if from == [] then []
    else Satisfying(g, tag, cs, NeighborsOf(g, from[0], dir, edgeTag, edgePreds))
         + SatisfyingFrom(g, tag, cs, edgePreds, dir, edgeTag, from[1..])
  }

  /** A search yields exactly the satisfying nodes, in scan order. */
  lemma SearchMeaning(g: Graph, tag: Tag, cs: seq<Constraint>, edgePreds: seq<Predicate>)
    requires CompileAll(cs, |cs|).Compiled?
    ensures Found(g, Expression(tag, Terms(CompileAll(cs, |cs|).msgs), edgePreds)) == Satisfying(g, tag, cs, g.order)
  {
    SelectIsSatisfying(g, tag, cs, g.order);
  }

  /** A linked search yields the satisfying neighbours of every start node, start by start. */
  lemma {:induction false} LinkMeaning(g: Graph, tag: Tag, cs: seq<Constraint>, edgePreds: seq<Predicate>,
                                       dir: Direction, edgeTag: Tag, from: seq<NodeId>)
    requires CompileAll(cs, |cs|).Compiled?
    ensures FoundFrom(g, Walk(Expression(tag, Terms(CompileAll(cs, |cs|).msgs), edgePreds), dir, edgeTag), from)
         == SatisfyingFrom(g, tag, cs, edgePreds, dir, edgeTag, from)
  {
    if from != [] {
      SelectIsSatisfying(g, tag, cs, NeighborsOf(g, from[0], dir, edgeTag, edgePreds));
      LinkMeaning(g, tag, cs, edgePreds, dir, edgeTag, from[1..]);
    }
  }

  /** Membership in the answer, without any order. */
  lemma {:induction false} SatisfyingMembers(g: Graph, tag: Tag, cs: seq<Constraint>, xs: seq<NodeId>, n: NodeId)
    ensures n in Satisfying(g, tag, cs, xs) <==>
            n in xs && (tag == ANY_TAG || TagOf(g, n) == tag) && MeetsAll(PropsOf(g, n), cs, |cs|)
  {
    if xs != [] { SatisfyingMembers(g, tag, cs, xs[1..], n); }
  }

  // ------------------------------- constraints on the values of the request

  /** The compilation succeeds and its predicates hold of the properties `p`. */
  ghost predicate HoldsOf(r: Compiled, p: Properties) { r.Compiled? && PassesAll(Terms(r.msgs), p) }

  /** A constraint compiles, and the predicates made of it hold of `p`. */
  ghost predicate Selects(c: Constraint, p: Properties) { HoldsOf(CompileAll([c], 1), p) }

  lemma SelectsOne(c: Constraint, p: Properties)
    ensures Selects(c, p) <==> HoldsOf(CompileOne(c), p)
  {
    assert CompileAll([c], 0) == Compiled([]);
    if CompileOne(c).Compiled? { assert [] + CompileOne(c).msgs == CompileOne(c).msgs; }
  }

  lemma OneMoreSelects(cs: seq<Constraint>, n: nat, p: Properties)
    requires n < |cs|
    ensures HoldsOf(CompileAll(cs, n + 1), p) <==> HoldsOf(CompileAll(cs, n), p) && Selects(cs[n], p)
  {
    SelectsOne(cs[n], p);
    var r, t := CompileAll(cs, n), CompileOne(cs[n]);
    if r.Compiled? && t.Compiled? { PassesAppend(r.msgs, t.msgs, p); }
  }

  lemma {:induction false} EachSelects(cs: seq<Constraint>, n: nat, i: nat, p: Properties)
    requires i < n <= |cs| && HoldsOf(CompileAll(cs, n), p)
    ensures Selects(cs[i], p)
  {
    OneMoreSelects(cs, n - 1, p);
    if i < n - 1 { EachSelects(cs, n - 1, i, p); }
  }

  lemma {:induction false} SomeRejects(cs: seq<Constraint>, n: nat, p: Properties) returns (i: nat)
    requires n <= |cs| && !HoldsOf(CompileAll(cs, n), p)
    ensures i < n && !Selects(cs[i], p)
  {
    i := 0;
    if n > 0 {
      OneMoreSelects(cs, n - 1, p);
      if Selects(cs[n - 1], p) { i := SomeRejects(cs, n - 1, p); } else { i := n - 1; }
    }
  }

  /** A list of constraints compiles into predicates that hold exactly where each of them does. */
  lemma ListSelects(cs: seq<Constraint>, p: Properties)
    ensures HoldsOf(CompileAll(cs, |cs|), p) <==> forall i :: 0 <= i < |cs| ==> Selects(cs[i], p)
  {
    if HoldsOf(CompileAll(cs, |cs|), p) {
      forall i | 0 <= i < |cs| ensures Selects(cs[i], p) { EachSelects(cs, |cs|, i, p); }
    } else {
      var _ := SomeRejects(cs, |cs|, p);
    }
  }

  lemma OperatorNames(op: string)
    ensures (ScalarOp(op) == Gt <==> op == ">") && (ScalarOp(op) == Ge <==> op == ">=")
    ensures (ScalarOp(op) == Lt <==> op == "<") && (ScalarOp(op) == Le <==> op == "<=")
    ensures (ScalarOp(op) == Eq <==> op == "==") && (ScalarOp(op) == Ne <==> op == "!=")
    ensures ScalarOp(op) in {Gt, Ge, Lt, Le, Eq, Ne, DontCare}
  {
  }

  /** The compiled predicates hold only if the operand is usable; then so does the one message. */
  lemma ScalarSelects(k: Key, op: string, v: Json, p: Properties)
    requires k != "_deletion"
    ensures Selects(Scalar(k, op, v), p) <==> ToProperty(v).Some? && Passes(Term(Message(k, ScalarOp(op), ToProperty(v).value, None)), p)
  {
    var c := Scalar(k, op, v);
    SelectsOne(c, p);
    if ToProperty(v).Some? {
      assert Terms(CompileOne(c).msgs)[0] == Term(Message(k, ScalarOp(op), ToProperty(v).value, None));
    }
  }

  lemma RangeTermSelects(k: Key, op1: string, v1: Json, op2: string, v2: Json, p: Properties)
    requires k != "_deletion"
    ensures Selects(Range(k, op1, v1, op2, v2), p) <==>
            && ToProperty(v1).Some? && ToProperty(v2).Some?
            && Passes(Term(Message(k, RangeOp(op1, op2), ToProperty(v1).value, ToProperty(v2))), p)
  {
    var c := Range(k, op1, v1, op2, v2);
    SelectsOne(c, p);
    if ToProperty(v1).Some? && ToProperty(v2).Some? {
      assert Terms(CompileOne(c).msgs)[0] == Term(Message(k, RangeOp(op1, op2), ToProperty(v1).value, ToProperty(v2)));
    }
  }

  /** A constraint on the deletion mark selects everything. */
  lemma DeletionSelects(c: Constraint, p: Properties)
    requires c.key == "_deletion"
    ensures Selects(c, p)
  {
    SelectsOne(c, p);
  }

  /** An operand that is no property value makes the compilation fail. */
  lemma OtherSelects(k: Key, op: string, op2: string, v: Json, p: Properties)
    requires k != "_deletion"
    ensures !Selects(Scalar(k, op, JOther), p) && !Selects(Range(k, op, JOther, op2, v), p) && !Selects(Range(k, op, v, op2, JOther), p)
  {
    ScalarSelects(k, op, JOther, p);
    RangeTermSelects(k, op, JOther, op2, v, p);
    RangeTermSelects(k, op, v, op2, JOther, p);
  }

  /** An integer operand: the stored integer compares as written. */
  lemma IntegerSelects(k: Key, op: string, n: int, p: Properties)
    requires k != "_deletion"
    ensures Selects(Scalar(k, op, JInt(n)), p) <==>
            && k in p
            && (op == ">" ==> p[k].IntV? && p[k].i > n) && (op == ">=" ==> p[k].IntV? && p[k].i >= n)
            && (op == "<" ==> p[k].IntV? && p[k].i < n) && (op == "<=" ==> p[k].IntV? && p[k].i <= n)
            && (op == "==" ==> p[k] == IntV(n)) && (op == "!=" ==> p[k] != IntV(n))
  {
    OperatorNames(op);
    ScalarSelects(k, op, JInt(n), p);
  }

  lemma RealSelects(k: Key, op: string, r: real, p: Properties)
    requires k != "_deletion"
    ensures Selects(Scalar(k, op, JReal(r)), p) <==>
            && k in p
            && (op == ">" ==> p[k].RealV? && p[k].r > r) && (op == ">=" ==> p[k].RealV? && p[k].r >= r)
            && (op == "<" ==> p[k].RealV? && p[k].r < r) && (op == "<=" ==> p[k].RealV? && p[k].r <= r)
            && (op == "==" ==> p[k] == RealV(r)) && (op == "!=" ==> p[k] != RealV(r))
  {
    OperatorNames(op);
    ScalarSelects(k, op, JReal(r), p);
  }

  /** A boolean operand: false is below true. */
  lemma BooleanSelects(k: Key, op: string, b: bool, p: Properties)
    requires k != "_deletion"
    ensures Selects(Scalar(k, op, JBool(b)), p) <==>
            && k in p
            && (op == ">" ==> p[k] == BoolV(true) && !b) && (op == ">=" ==> p[k] == BoolV(true) || p[k] == BoolV(b))
            && (op == "<" ==> p[k] == BoolV(false) && b) && (op == "<=" ==> p[k] == BoolV(false) || p[k] == BoolV(b))
            && (op == "==" ==> p[k] == BoolV(b)) && (op == "!=" ==> p[k] != BoolV(b))
  {
    OperatorNames(op);
    ScalarSelects(k, op, JBool(b), p);
  }

  /** A date operand compares with the stored time. */
  lemma DateSelects(k: Key, op: string, t: int, p: Properties)
    requires k != "_deletion"
    ensures Selects(Scalar(k, op, JDate(t)), p) <==>
            && k in p
            && (op == ">" ==> p[k].TimeV? && p[k].t > t) && (op == ">=" ==> p[k].TimeV? && p[k].t >= t)
            && (op == "<" ==> p[k].TimeV? && p[k].t < t) && (op == "<=" ==> p[k].TimeV? && p[k].t <= t)
            && (op == "==" ==> p[k] == TimeV(t)) && (op == "!=" ==> p[k] != TimeV(t))
  {
    OperatorNames(op);
    ScalarSelects(k, op, JDate(t), p);
  }

  /** A string or blob operand: the stored string compares in lexicographic order. */
  lemma StringSelects(k: Key, op: string, v: Json, s: string, p: Properties)
    requires k != "_deletion" && (v == JString(s) || v == JBlob(s))
    ensures Selects(Scalar(k, op, v), p) <==>
            && k in p
            && (op == ">" ==> p[k].StringV? && Lexicographic(s, p[k].s)) && (op == ">=" ==> p[k].StringV? && (s == p[k].s || Lexicographic(s, p[k].s)))
            && (op == "<" ==> p[k].StringV? && Lexicographic(p[k].s, s)) && (op == "<=" ==> p[k].StringV? && (s == p[k].s || Lexicographic(p[k].s, s)))
            && (op == "==" ==> p[k] == StringV(s)) && (op == "!=" ==> p[k] != StringV(s))
  {
    OperatorNames(op);
    ScalarSelects(k, op, v, p);
    if k in p && p[k].StringV? {
      StringLessIs(s, p[k].s);
      StringLessIs(p[k].s, s);
    }
  }

  /** A range selects what its two bounds select. */
  lemma RangeSelects(k: Key, op1: string, v1: Json, op2: string, v2: Json, p: Properties)
    requires k != "_deletion" && op1 in {">", ">="} && op2 in {"<", "<="}
    ensures Selects(Range(k, op1, v1, op2, v2), p) <==> Selects(Scalar(k, op1, v1), p) && Selects(Scalar(k, op2, v2), p)
  {
    RangeTermSelects(k, op1, v1, op2, v2, p);
    ScalarSelects(k, op1, v1, p);
    ScalarSelects(k, op2, v2, p);
    BoundNames(op1, op2);
    if ToProperty(v1).Some? && ToProperty(v2).Some? {
      BoundsBoth(k, ScalarOp(op1), ScalarOp(op2), ToProperty(v1).value, ToProperty(v2).value, p);
    }
  }

  /** The four operators made of a lower and an upper bound. */
  function Both(lower: Op, upper: Op): Op
    requires lower in {Gt, Ge} && upper in {Lt, Le}
  {
    if lower == Gt then if upper == Lt then GtLt else GtLe
    else if upper == Lt then GeLt else GeLe
  }

  lemma BoundNames(op1: string, op2: string)
    requires op1 in {">", ">="} && op2 in {"<", "<="}
    ensures ScalarOp(op1) in {Gt, Ge} && ScalarOp(op2) in {Lt, Le} && RangeOp(op1, op2) == Both(ScalarOp(op1), ScalarOp(op2))
  {
  }

  lemma BoundsBoth(k: Key, lower: Op, upper: Op, x: Value, y: Value, p: Properties)
    requires lower in {Gt, Ge} && upper in {Lt, Le}
    ensures Passes(Term(Message(k, Both(lower, upper), x, Some(y))), p) <==>
            Passes(Term(Message(k, lower, x, None)), p) && Passes(Term(Message(k, upper, y, None)), p)
  {
  }

  /** With other operators than a lower and an upper bound it only asks for the property. */
  lemma OddRangeSelects(k: Key, op1: string, v1: Json, op2: string, v2: Json, p: Properties)
    requires k != "_deletion" && !(op1 in {">", ">="} && op2 in {"<", "<="})
    ensures Selects(Range(k, op1, v1, op2, v2), p) <==> k in p && v1 != JOther && v2 != JOther
  {
    RangeTermSelects(k, op1, v1, op2, v2, p);
  }

  /** A search over the graph finds exactly the nodes that have the tag and are selected by every
      constraint of the request. */
  lemma SearchSelects(g: Graph, tag: Tag, cs: seq<Constraint>, edgePreds: seq<Predicate>, n: NodeId)
    requires WellFormed(g) && CompileAll(cs, |cs|).Compiled?
    ensures n in Found(g, Expression(tag, Terms(CompileAll(cs, |cs|).msgs), edgePreds)) <==>
            n in g.nodes && (tag == 0 || g.nodes[n].tag == tag) && forall i :: 0 <= i < |cs| ==> Selects(cs[i], g.nodes[n].props)
  {
    SelectMembers(g, Filter(tag, Terms(CompileAll(cs, |cs|).msgs)), g.order, n);
    ListSelects(cs, PropsOf(g, n));
  }
}
