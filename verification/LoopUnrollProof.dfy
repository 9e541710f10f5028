/** Unrolled loops mean what the loops meant. */
module LoopUnrollProof {
  import opened Wrappers
  import opened VerilogAst
  import opened LoopUnroll

  // ----- the substitution lemma -----

  /** States that differ at most in the current value of i. */
  ghost predicate SameBut(i: string, s: State, t: State) {
    && s.later == t.later
    && forall c: Cell :: c != Scalar(i) ==> Look(s, c) == Look(t, c)
  }

  /** No assignment anywhere in a writes i. */
  predicate NeverAssigns(a: Ast, i: string)
    decreases a
  {
    a.Node? ==>
      && ((a.tag.Blocking? || a.tag.NonBlocking?) && |a.children| > 0 ==> a.children[0] != Ident(i))
      && forall k :: 0 <= k < |a.children| ==> NeverAssigns(a.children[k], i)
  }

  /** Substituting the value of i makes an expression independent of i without changing its value. */
  lemma {:induction false} SubstEval(e: Ast, i: string, v: int, s: State, t: State)
    requires Look(s, Scalar(i)) == v && SameBut(i, s, t)
    ensures Eval(FillChild(e, i, v), t) == Eval(e, s)
    decreases e
  {
    match e {
      case Node(tag, cs) =>
        if !tag.ModuleInstance? {
          forall k | 0 <= k < |cs|
            ensures Eval(FillChild(cs[k], i, v), t) == Eval(cs[k], s)
          {
            SubstEval(cs[k], i, v, s, t);
          }
        }
      case _ =>
    }
  }

  /** In a copy, what a module instance is connected to has the value it had; the rest of it is left alone. */
  lemma {:induction false} InstanceFilled(body: Ast, i: string, v: int, k: nat, m: nat, s: State, t: State)
    requires body.Node? && k < |body.children| && NamesInstance(body.children[k])
    requires body.children[k].children[0].Node? && m < |body.children[k].children[0].children|
    requires Look(s, Scalar(i)) == v && SameBut(i, s, t)
    ensures var was, copy := body.children[k], Fill(body, i, v);
      && copy.Node? && k < |copy.children| && copy.children[k].Node? && copy.children[k].tag == was.tag
      && |copy.children[k].children| == |was.children| && copy.children[k].children[1..] == was.children[1..]
      && var named := copy.children[k].children[0];
         named.Node? && m < |named.children| && Eval(named.children[m], t) == Eval(was.children[0].children[m], s)
  {
    var named := body.children[k].children[0];
    assert Fill(named, i, v).children[m] == FillChild(named.children[m], i, v);
    SubstEval(named.children[m], i, v, s, t);
  }

  lemma {:induction false} SubstTarget(lhs: Ast, i: string, v: int, s: State, t: State)
    requires Look(s, Scalar(i)) == v && SameBut(i, s, t) && lhs != Ident(i)
    ensures Target(FillChild(lhs, i, v), t) == Target(lhs, s)
    ensures Target(lhs, s) != Some(Scalar(i))
  {
    if lhs.Node? && lhs.tag.ArrayRef? && |lhs.children| == 1 {
      SubstEval(lhs.children[0], i, v, s, t);
    }
  }

  lemma {:induction false} WriteSame(i: string, s: State, t: State, c: Cell, v: int)
    requires SameBut(i, s, t)
    ensures SameBut(i, Write(s, c, v), Write(t, c, v))
  {
    forall d: Cell | d != Scalar(i)
      ensures Look(Write(s, c, v), d) == Look(Write(t, c, v), d)
    {
      assert Look(s, d) == Look(t, d);
    }
  }

  /** The state after a non-blocking assignment. */
  function Defer(s: State, c: Cell, v: int): State {
    s.(later := s.later[c := v])
  }

  lemma {:induction false} DeferSame(i: string, s: State, t: State, c: Cell, v: int)
    requires SameBut(i, s, t)
    ensures SameBut(i, Defer(s, c, v), Defer(t, c, v))
    ensures Look(Defer(s, c, v), Scalar(i)) == Look(s, Scalar(i))
  {
    forall d: Cell | d != Scalar(i)
      ensures Look(Defer(s, c, v), d) == Look(Defer(t, c, v), d)
    {
      assert Look(s, d) == Look(t, d);
      assert Defer(s, c, v).now == s.now && Defer(t, c, v).now == t.now;
    }
  }

  lemma {:induction false} FillNode(a: Ast, i: string, v: int)
    requires a.Node? && !a.tag.ModuleInstance?
    ensures FillChild(a, i, v) == Node(a.tag, FillChildren(a.children, i, v))
  {
  }

  /** Outcomes that agree but for i, which keeps its value v on the original side. */
  ghost predicate SameOutcome(i: string, v: int, r: Option<State>, r': Option<State>) {
    if r.None? then r'.None?
    else r'.Some? && SameBut(i, r.value, r'.value) && Look(r.value, Scalar(i)) == v
  }

  lemma {:induction false} SubstAssignment(fuel: nat, a: Ast, i: string, v: int, s: State, t: State)
    requires a.Node? && (a.tag.Blocking? || a.tag.NonBlocking?) && |a.children| == 2
    requires NeverAssigns(a, i) && Look(s, Scalar(i)) == v && SameBut(i, s, t)
    ensures SameOutcome(i, v, Exec(fuel, a, s), Exec(fuel, FillChild(a, i, v), t))
  {
    var cs := a.children;
    SubstTarget(cs[0], i, v, s, t);
    SubstEval(cs[1], i, v, s, t);
    var cell, value := Target(cs[0], s), Eval(cs[1], s);
    if cell.Some? && value.Some? {
      WriteSame(i, s, t, cell.value, value.value);
      DeferSame(i, s, t, cell.value, value.value);
    }
  }

  lemma {:induction false} SubstExec(fuel: nat, a: Ast, i: string, v: int, s: State, t: State)
    requires NeverAssigns(a, i) && Look(s, Scalar(i)) == v && SameBut(i, s, t)
    ensures SameOutcome(i, v, Exec(fuel, a, s), Exec(fuel, FillChild(a, i, v), t))
    decreases fuel, a, 1
  {
    match a {
      case Node(tag, cs) =>
        if tag.Block? {
          SubstExecSeq(fuel, cs, i, v, s, t);
        } else if (tag.Blocking? || tag.NonBlocking?) && |cs| == 2 {
          SubstAssignment(fuel, a, i, v, s, t);
        } else if tag.If? && |cs| == 3 {
          SubstEval(cs[0], i, v, s, t);
          SubstExec(fuel, cs[1], i, v, s, t);
          SubstExec(fuel, cs[2], i, v, s, t);
        } else if tag.For? && |cs| == 4 {
          FillNode(a, i, v);
          SubstExec(fuel, cs[0], i, v, s, t);
          var r, r' := Exec(fuel, cs[0], s), Exec(fuel, FillChild(cs[0], i, v), t);
          if r.Some? {
            SubstExecLoop(fuel, a, i, v, r.value, r'.value);
          }
        }
      case _ =>
    }
  }

  lemma {:induction false} SubstExecSeq(fuel: nat, cs: seq<Ast>, i: string, v: int, s: State, t: State)
    requires (forall k :: 0 <= k < |cs| ==> NeverAssigns(cs[k], i)) && Look(s, Scalar(i)) == v && SameBut(i, s, t)
    ensures SameOutcome(i, v, ExecSeq(fuel, cs, s), ExecSeq(fuel, FillChildren(cs, i, v), t))
    decreases fuel, cs, 0
  {
    if cs != [] {
      SubstExec(fuel, cs[0], i, v, s, t);
      var r, r' := Exec(fuel, cs[0], s), Exec(fuel, FillChild(cs[0], i, v), t);
      if r.Some? {
        SubstExecSeq(fuel, cs[1..], i, v, r.value, r'.value);
      }
    }
  }

  lemma {:induction false} SubstExecLoop(fuel: nat, loop: Ast, i: string, v: int, s: State, t: State)
    requires loop.Node? && loop.tag.For? && |loop.children| == 4
    requires NeverAssigns(loop, i) && Look(s, Scalar(i)) == v && SameBut(i, s, t)
    ensures SameOutcome(i, v, ExecLoop(fuel, loop, s), ExecLoop(fuel, Node(For, FillChildren(loop.children, i, v)), t))
    decreases fuel, loop, 0
  {
    var cs := loop.children;
    SubstEval(cs[1], i, v, s, t);
    var c := Eval(cs[1], s);
    if c.Some? && c.value != 0 && fuel > 0 {
      SubstExec(fuel - 1, cs[3], i, v, s, t);
      var r, r' := Exec(fuel - 1, cs[3], s), Exec(fuel - 1, FillChild(cs[3], i, v), t);
      if r.Some? {
        SubstExec(fuel - 1, cs[2], i, v, r.value, r'.value);
        var u, u' := Exec(fuel - 1, cs[2], r.value), Exec(fuel - 1, FillChild(cs[2], i, v), r'.value);
        if u.Some? {
          SubstExecLoop(fuel - 1, loop, i, v, u.value, u'.value);
        }
      }
    }
  }

  /** At the root, Fill and FillChild differ only where nothing is executed. */
  lemma {:induction false} FillRuns(fuel: nat, a: Ast, i: string, v: int, t: State)
    ensures Exec(fuel, Fill(a, i, v), t) == Exec(fuel, FillChild(a, i, v), t)
  {
  }

  // ----- the unroller -----

  /** What resolve_for has worked out before it starts copying. */
  datatype Plan = Plan(i: string, start: int, test: Test, step: Step)

  function MakePlan(loop: Ast): Option<Plan>
    requires loop.Node? && loop.tag.For? && |loop.children| == 4
  {
    var pre := loop.children[0];
    if pre.Node? && pre.tag.Blocking? && |pre.children| == 2 && pre.children[1].Num? && pre.children[0].Ident? then
      var i := pre.children[0].name;
      var test, step := ResolveCondition(loop.children[1], i), ResolvePostCondition(loop.children[2], i);
      if test.None? || step.None? then None else Some(Plan(i, pre.children[1].value, test.value, step.value))
    else None
  }

  lemma {:induction false} ConditionResolves(node: Ast, i: string)
    ensures ResolveCondition(node, i).Some? <==> !IsUnsupportedCondition(node, i)
    decreases node
  {
    if !IsUnsupportedCondition(node, i) {
      if node.tag.op == LogicalOr || node.tag.op == LogicalAnd {
        ConditionResolves(node.children[0], i);
        ConditionResolves(node.children[1], i);
      } else if node.tag.op == LogicalNot {
        ConditionResolves(node.children[0], i);
      }
    }
  }

  /** Some assignment of an accepted step. */
  ghost predicate SteppedBy(post: Ast, i: string) {
    exists to: Ast, step: Ast :: post == Node(Blocking, [to, step]) && to != Missing && step != Missing
                                 && !IsUnsupportedPost(step, i)
  }

  /** The loops that can be unrolled: VAR = NUM; an accepted condition; some assignment of an accepted step. */
  lemma {:induction false} PlanExact(loop: Ast)
    requires loop.Node? && loop.tag.For? && |loop.children| == 4
    ensures MakePlan(loop).Some? <==> exists i: string, k: int ::
      loop.children[0] == Node(Blocking, [Ident(i), Num(k)]) && !IsUnsupportedCondition(loop.children[1], i)
        && SteppedBy(loop.children[2], i)
  {
    var pre, post := loop.children[0], loop.children[2];
    if pre.Node? && |pre.children| == 2 && pre.children[0].Ident? {
      ConditionResolves(loop.children[1], pre.children[0].name);
    }
    if MakePlan(loop).Some? {
      assert pre == Node(Blocking, [Ident(pre.children[0].name), Num(pre.children[1].value)]);
      assert post == Node(Blocking, [post.children[0], post.children[1]]);
    }
  }

  /** The loop runs its body exactly `steps` times, or fails on the way. */
  ghost predicate EndsAfter(p: Plan, v: int, steps: nat)
    decreases steps
  {
    if p.test(v) == Some(true) then steps > 0 && (p.step(v).Some? ==> EndsAfter(p, p.step(v).value, steps - 1))
    else steps == 0
  }

  /** One copy of the body per iteration; None if a closure fails. */
  function Copies(p: Plan, body: Ast, v: int, steps: nat): Option<seq<Ast>>
    decreases steps
  {
    var b := p.test(v);
    if b.None? then None
    else if !b.value then Some([])
    else if steps == 0 || p.step(v).None? then None
    else
      var rest := Copies(p, body, p.step(v).value, steps - 1);
      if rest.None? then None else Some([Fill(body, p.i, v)] + rest.value)
  }

  /** The copies made so far, followed by the rest, are all copies. */
  ghost predicate Made(all: Option<seq<Ast>>, made: seq<Ast>, rest: Option<seq<Ast>>) {
    all == if rest.None? then None else Some(made + rest.value)
  }

  lemma {:induction false} MadeOneMore(all: Option<seq<Ast>>, made: seq<Ast>, copy: Ast, rest: Option<seq<Ast>>)
    requires Made(all, made, if rest.None? then None else Some([copy] + rest.value))
    ensures Made(all, made + [copy], rest)
  {
    if rest.Some? {
      assert made + ([copy] + rest.value) == (made + [copy]) + rest.value;
    }
  }

  /** Builds the block of copies; None for an unsupported loop and for one that runs no iteration. */
  method ResolveFor(loop: Ast, ghost steps: nat) returns (block: Option<Ast>)
    requires loop.Node? && loop.tag.For? && |loop.children| == 4
    requires MakePlan(loop).Some? ==> EndsAfter(MakePlan(loop).value, MakePlan(loop).value.start, steps)
    ensures block == if MakePlan(loop).None? then None else
      var copies := Copies(MakePlan(loop).value, loop.children[3], MakePlan(loop).value.start, steps);
      if copies.None? || copies.value == [] then None else Some(Node(Block, copies.value))
  {
    var plan := MakePlan(loop);
    if plan.None? {
      return None;
    }
    var p, body := plan.value, loop.children[3];
    var value := p.start;
    var copies: seq<Ast> := [];
    ghost var left: nat := steps;
    ghost var all := Copies(p, body, p.start, steps);
    assert Made(all, copies, all) by {
      assert all.Some? ==> [] + all.value == all.value;
    }
    var dupBody := p.test(value);
    while dupBody == Some(true)
      invariant left <= steps && EndsAfter(p, value, left) && dupBody == p.test(value)
      invariant Made(all, copies, Copies(p, body, value, left))
      decreases left
    {
      var newBody := DupAndFillBody(body, p.i, value);
      var next := p.step(value);
      if next.None? {
        return None;
      }
      MadeOneMore(all, copies, newBody, Copies(p, body, next.value, left - 1));
      value := next.value;
      copies := copies + [newBody];
      left := left - 1;
      dupBody := p.test(value);
    }
    assert dupBody == Some(false) ==> copies + [] == copies;
    if dupBody.None? || copies == [] {
      return None;
    }
    block := Some(Node(Block, copies));
  }

  /** VAR = NUM; CONDITION_OF_VAR; TARGET = EXPRESSION_OF_VAR; and a body that leaves VAR alone. */
  ghost predicate GoodUpToTarget(loop: Ast, i: string) {
    && loop.Node? && loop.tag.For? && |loop.children| == 4
    && var pre, cond, post, body := loop.children[0], loop.children[1], loop.children[2], loop.children[3];
       && pre.Node? && pre.tag == Blocking && |pre.children| == 2
       && pre.children[0] == Ident(i) && pre.children[1].Num?
       && RightCondition(cond, i)
       && post.Node? && post.tag == Blocking && |post.children| == 2 && post.children[0] != Missing
       && GoodStep(post.children[1], i) && !IsUnsupportedPost(post.children[1], i)
       && NeverAssigns(body, i)
  }

  /** Loops the theorems speak of. The source does not check that the step assigns the loop variable. */
  ghost predicate GoodFor(loop: Ast, i: string) {
    GoodUpToTarget(loop, i) && loop.children[2].children[0] == Ident(i)
  }

  lemma {:induction false} GoodPlan(loop: Ast, i: string)
    requires GoodUpToTarget(loop, i)
    ensures MakePlan(loop).Some? && MakePlan(loop).value.i == i
    ensures MakePlan(loop).value.start == loop.children[0].children[1].value
  {
    ClosureIsReading(loop.children[1], i, State(map[], map[]));
  }

  /** The closures test and step the loop variable as the statement does. */
  lemma {:induction false} PlanAgrees(loop: Ast, i: string, s: State)
    requires GoodUpToTarget(loop, i)
    ensures MakePlan(loop).Some?
    ensures var p, v := MakePlan(loop).value, Look(s, Scalar(i));
      && Eval(loop.children[1], s).Some? && p.test(v) == Some(Eval(loop.children[1], s).value != 0)
      && p.step(v) == Eval(loop.children[2].children[1], s)
  {
    ConditionExact(loop.children[1], i, s);
    StepAgrees(loop.children[2].children[1], i, s);
  }

  lemma {:induction false} ExecStep(fuel: nat, loop: Ast, i: string, s: State)
    requires GoodFor(loop, i)
    ensures var v := Eval(loop.children[2].children[1], s);
      Exec(fuel, loop.children[2], s) == if v.None? then None else Some(Write(s, Scalar(i), v.value))
  {
  }

  /** Running a statement and then the others, with fuel to spare. */
  lemma {:induction false} RunFirst(fuel: nat, first: Ast, rest: seq<Ast>, t: State, r: State)
    requires Exec(fuel, first, t) == Some(r) && ExecSeq(fuel, rest, r).Some?
    ensures ExecSeq(fuel + 1, [first] + rest, t) == ExecSeq(fuel, rest, r)
  {
    ExecMonotone(fuel, fuel + 1, first, t);
    ExecSeqMonotone(fuel, fuel + 1, rest, r);
    assert ([first] + rest)[1..] == rest;
  }

  /** One run of the body and one of its copy, from states where the loop variable is v. */
  lemma {:induction false} OneIteration(fuel: nat, loop: Ast, i: string, v: int, s: State, t: State)
    requires GoodFor(loop, i) && Look(s, Scalar(i)) == v && SameBut(i, s, t)
    ensures SameOutcome(i, v, Exec(fuel, loop.children[3], s), Exec(fuel, Fill(loop.children[3], i, v), t))
  {
    SubstExec(fuel, loop.children[3], i, v, s, t);
    FillRuns(fuel, loop.children[3], i, v, t);
  }

  /** The step statement sets the loop variable to what the closure says. */
  lemma {:induction false} StepFollows(fuel: nat, loop: Ast, i: string, v: int, r: State)
    requires GoodFor(loop, i) && MakePlan(loop).Some? && Look(r, Scalar(i)) == v
    ensures var next := MakePlan(loop).value.step(v);
      Exec(fuel, loop.children[2], r) == if next.None? then None else Some(Write(r, Scalar(i), next.value))
  {
    PlanAgrees(loop, i, r);
    ExecStep(fuel, loop, i, r);
  }

  lemma {:induction false} LoopStops(fuel: nat, loop: Ast, i: string, s: State)
    requires GoodFor(loop, i) && MakePlan(loop).Some?
    requires MakePlan(loop).value.test(Look(s, Scalar(i))) == Some(false)
    ensures ExecLoop(fuel, loop, s) == Some(s)
  {
    PlanAgrees(loop, i, s);
  }

  /** An iteration the loop gets through: the copy gets through as well, and both go on in step. */
  lemma {:induction false} LoopStep(fuel: nat, loop: Ast, i: string, v: int, s: State, t: State)
    returns (u: State, r': State)
    requires GoodFor(loop, i) && MakePlan(loop).Some? && MakePlan(loop).value.test(v) == Some(true)
    requires Look(s, Scalar(i)) == v && SameBut(i, s, t) && ExecLoop(fuel, loop, s).Some?
    ensures fuel > 0 && ExecLoop(fuel, loop, s) == ExecLoop(fuel - 1, loop, u)
    ensures Exec(fuel - 1, Fill(loop.children[3], i, v), t) == Some(r') && SameBut(i, u, r')
    ensures MakePlan(loop).value.step(v) == Some(Look(u, Scalar(i)))
  {
    PlanAgrees(loop, i, s);
    OneIteration(fuel - 1, loop, i, v, s, t);
    var r := Exec(fuel - 1, loop.children[3], s).value;
    r' := Exec(fuel - 1, Fill(loop.children[3], i, v), t).value;
    StepFollows(fuel - 1, loop, i, v, r);
    u := Exec(fuel - 1, loop.children[2], r).value;
  }

  /** An iteration the copy gets through: with fuel to spare the loop gets through as well. */
  lemma {:induction false} CopyStep(fuel: nat, more: nat, loop: Ast, i: string, v: int, s: State, t: State)
    returns (u: State)
    requires GoodFor(loop, i) && MakePlan(loop).Some? && MakePlan(loop).value.test(v) == Some(true)
    requires MakePlan(loop).value.step(v).Some? && fuel <= more
    requires Look(s, Scalar(i)) == v && SameBut(i, s, t) && Exec(fuel, Fill(loop.children[3], i, v), t).Some?
    ensures ExecLoop(more + 1, loop, s) == ExecLoop(more, loop, u)
    ensures SameBut(i, u, Exec(fuel, Fill(loop.children[3], i, v), t).value)
    ensures MakePlan(loop).value.step(v) == Some(Look(u, Scalar(i)))
  {
    PlanAgrees(loop, i, s);
    OneIteration(fuel, loop, i, v, s, t);
    var r := Exec(fuel, loop.children[3], s).value;
    ExecMonotone(fuel, more, loop.children[3], s);
    StepFollows(more, loop, i, v, r);
    u := Exec(more, loop.children[2], r).value;
  }

  lemma {:induction false} FirstRuns(fuel: nat, first: Ast, rest: seq<Ast>, t: State)
    requires ExecSeq(fuel, [first] + rest, t).Some?
    ensures Exec(fuel, first, t).Some?
    ensures ExecSeq(fuel, [first] + rest, t) == ExecSeq(fuel, rest, Exec(fuel, first, t).value)
  {
    assert ([first] + rest)[1..] == rest;
  }

  /** The first copy and the others. */
  lemma {:induction false} CopiesSplit(p: Plan, body: Ast, v: int, steps: nat)
    requires p.test(v) == Some(true) && p.step(v).Some? && EndsAfter(p, v, steps)
    ensures steps > 0 && EndsAfter(p, p.step(v).value, steps - 1)
    ensures var rest := Copies(p, body, p.step(v).value, steps - 1);
      Copies(p, body, v, steps) == if rest.None? then None else Some([Fill(body, p.i, v)] + rest.value)
  {
  }

  lemma {:induction false} NoMoreCopies(p: Plan, body: Ast, v: int, steps: nat)
    requires p.test(v) == Some(false) && EndsAfter(p, v, steps)
    ensures steps == 0 && Copies(p, body, v, steps) == Some([])
  {
  }

  /** From a state where the loop variable is v, the loop and the remaining copies do the same. */
  lemma {:induction false} CopiesFollowLoop(fuel: nat, loop: Ast, i: string, v: int, steps: nat, s: State, t: State)
    requires GoodFor(loop, i) && MakePlan(loop).Some? && EndsAfter(MakePlan(loop).value, v, steps)
    requires MakePlan(loop).value.i == i
    requires Look(s, Scalar(i)) == v && SameBut(i, s, t)
    requires ExecLoop(fuel, loop, s).Some?
    ensures var copies := Copies(MakePlan(loop).value, loop.children[3], v, steps);
      && copies.Some? && ExecSeq(fuel, copies.value, t).Some?
      && SameBut(i, ExecLoop(fuel, loop, s).value, ExecSeq(fuel, copies.value, t).value)
    decreases fuel
  {
    var p, body := MakePlan(loop).value, loop.children[3];
    PlanAgrees(loop, i, s);
    if p.test(v) == Some(true) {
      var u, r' := LoopStep(fuel, loop, i, v, s, t);
      CopiesSplit(p, body, v, steps);
      CopiesFollowLoop(fuel - 1, loop, i, Look(u, Scalar(i)), steps - 1, u, r');
      RunFirst(fuel - 1, Fill(body, i, v), Copies(p, body, Look(u, Scalar(i)), steps - 1).value, t, r');
    } else {
      NoMoreCopies(p, body, v, steps);
      LoopStops(fuel, loop, i, s);
    }
  }

  /** If the remaining copies run, so does the rest of the loop, with at most one unit of fuel more for each of them. */
  lemma {:induction false} LoopFollowsCopies(fuel: nat, loop: Ast, i: string, v: int, steps: nat, s: State, t: State)
    requires GoodFor(loop, i) && MakePlan(loop).Some? && EndsAfter(MakePlan(loop).value, v, steps)
    requires MakePlan(loop).value.i == i
    requires Look(s, Scalar(i)) == v && SameBut(i, s, t)
    requires Copies(MakePlan(loop).value, loop.children[3], v, steps).Some?
    requires ExecSeq(fuel, Copies(MakePlan(loop).value, loop.children[3], v, steps).value, t).Some?
    ensures var copies := Copies(MakePlan(loop).value, loop.children[3], v, steps).value;
      && ExecLoop(fuel + steps, loop, s).Some?
      && SameBut(i, ExecLoop(fuel + steps, loop, s).value, ExecSeq(fuel, copies, t).value)
    decreases steps
  {
    var p, body := MakePlan(loop).value, loop.children[3];
    PlanAgrees(loop, i, s);
    if p.test(v) == Some(true) {
      CopiesSplit(p, body, v, steps);
      var first, rest := Fill(body, i, v), Copies(p, body, p.step(v).value, steps - 1).value;
      FirstRuns(fuel, first, rest, t);
      var u := CopyStep(fuel, fuel + steps - 1, loop, i, v, s, t);
      LoopFollowsCopies(fuel, loop, i, Look(u, Scalar(i)), steps - 1, u, Exec(fuel, first, t).value);
    } else {
      NoMoreCopies(p, body, v, steps);
      LoopStops(fuel + steps, loop, i, s);
    }
  }
}
