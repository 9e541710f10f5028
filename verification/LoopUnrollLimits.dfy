/** Where unrolling changes the meaning: steps with another target, and code that reads the loop variable later. */
module LoopUnrollLimits {
  import opened Wrappers
  import opened VerilogAst
  import opened LoopUnroll
  import opened LoopUnrollProof
  import opened LoopUnrollInPlace

  // ----- steps that assign something else -----

  /** A loop whose step writes something else than the loop variable never gets past a test that holds. */
  lemma {:induction false} OtherTargetNeverEnds(fuel: nat, loop: Ast, i: string, s: State)
    requires GoodUpToTarget(loop, i) && loop.children[2].children[0] != Ident(i) && MakePlan(loop).Some?
    requires MakePlan(loop).value.test(Look(s, Scalar(i))) == Some(true)
    ensures ExecLoop(fuel, loop, s) == None
    decreases fuel
  {
    PlanAgrees(loop, i, s);
    var body, post, v := loop.children[3], loop.children[2], Look(s, Scalar(i));
    if fuel > 0 && Exec(fuel - 1, body, s).Some? {
      SubstExec(fuel - 1, body, i, v, s, s);
      var r := Exec(fuel - 1, body, s).value;
      SubstTarget(post.children[0], i, v, r, r);
      if Exec(fuel - 1, post, r).Some? {
        var u := Exec(fuel - 1, post, r).value;
        assert Look(u, Scalar(i)) == v;
        OtherTargetNeverEnds(fuel - 1, loop, i, u);
      }
    }
  }

  lemma {:induction false} OtherTargetNeverRuns(loop: Ast, i: string, copies: seq<Ast>, s: State, r: State)
    requires GoodUpToTarget(loop, i) && loop.children[2].children[0] != Ident(i)
    requires ReplacementFor(loop, copies) && copies != []
    ensures !Runs(loop, s, r)
  {
    GoodPlan(loop, i);
    var start := MakePlan(loop).value.start;
    forall fuel: nat
      ensures Exec(fuel, loop, s) == None
    {
      var pre := loop.children[0];
      assert Target(pre.children[0], s) == Some(Scalar(i));
      assert Exec(fuel, pre, s) == Some(Write(s, Scalar(i), start));
      OtherTargetNeverEnds(fuel, loop, i, Write(s, Scalar(i), start));
    }
  }

  /**
   * A loop that is unrolled into at least one copy means what its copies mean exactly when its step
   * assigns the loop variable, or the copies themselves never run to an end.
   */
  lemma {:induction false} TargetExact(loop: Ast, i: string, copies: seq<Ast>)
    requires GoodUpToTarget(loop, i) && ReplacementFor(loop, copies) && copies != []
    ensures SameMeaning(i, Node(Block, [loop]), Node(Block, copies)) <==>
      loop.children[2].children[0] == Ident(i) || forall s, r :: !Runs(Node(Block, copies), s, r)
  {
    if loop.children[2].children[0] == Ident(i) {
      UnrolledLoopMeansLoop(loop, i, copies);
    } else {
      forall s, r
        ensures !Runs(Node(Block, [loop]), s, r)
      {
        OtherTargetNeverRuns(loop, i, copies, s, r);
        RunsBlock([loop], s, r);
        RunsOne(loop, s, r);
      }
    }
  }

  // ----- a loop of one iteration -----

  /** for (i = last - 1; i < last; target = i + 1), with an empty body. */
  function OnceLoop(i: string, target: string, last: int): Ast {
    Node(For, [Node(Blocking, [Ident(i), Num(last - 1)]), Node(Binary(Lt), [Ident(i), Num(last)]),
               Node(Blocking, [Ident(target), Node(Binary(Add), [Ident(i), Num(1)])]), Missing])
  }

  lemma {:induction false} OnceLoopIsGood(i: string, target: string, last: int)
    ensures GoodUpToTarget(OnceLoop(i, target, last), i)
  {
    var step := OnceLoop(i, target, last).children[2].children[1];
    assert Names(step.children[0]) == {i} && Names(step.children[1]) == {};
    NamesSuffice(step, i);
    GoodIsRight(OnceLoop(i, target, last).children[1], i);
  }

  lemma {:induction false} OneCopy(p: Plan, start: int, next: int)
    requires p.test(start) == Some(true) && p.step(start) == Some(next) && p.test(next) == Some(false)
    ensures EndsAfter(p, start, 1) && Copies(p, Missing, start, 1) == Some([Missing])
  {
    assert EndsAfter(p, next, 0) && Copies(p, Missing, next, 0) == Some([]);
    assert [Missing] + [] == [Missing];
  }

  lemma {:induction false} OnceLoopUnrolls(i: string, target: string, last: int)
    ensures GoodUpToTarget(OnceLoop(i, target, last), i) && ReplacementFor(OnceLoop(i, target, last), [Missing])
  {
    OnceLoopIsGood(i, target, last);
    GoodPlan(OnceLoop(i, target, last), i);
    var p := MakePlan(OnceLoop(i, target, last)).value;
    var step := OnceLoop(i, target, last).children[2].children[1];
    assert StepValue(step.children[0], last - 1) == Some(last - 1) && StepValue(step.children[1], last - 1) == Some(1);
    assert p.test(last - 1) == Some(true) && p.step(last - 1) == Some(last) && p.test(last) == Some(false);
    OneCopy(p, last - 1, last);
  }

  /** The state in which the loop over its own variable ends. */
  function AfterOnce(i: string, last: int, s: State): State {
    Write(Write(s, Scalar(i), last - 1), Scalar(i), last)
  }

  lemma {:induction false} OnceLoopTests(i: string, last: int, s: State)
    ensures Eval(OnceLoop(i, i, last).children[1], s) == Some(Truth(Look(s, Scalar(i)) < last))
  {
    EvalComparison(Lt, Ident(i), Num(last), s);
  }

  lemma {:induction false} OnceLoopRuns(i: string, last: int, s: State)
    ensures Runs(OnceLoop(i, i, last), s, AfterOnce(i, last, s))
  {
    var loop := OnceLoop(i, i, last);
    var t, u := Write(s, Scalar(i), last - 1), AfterOnce(i, last, s);
    assert Exec(1, loop.children[0], s) == Some(t);
    OnceLoopTests(i, last, t);
    OnceLoopTests(i, last, u);
    assert Eval(loop.children[2].children[1], t) == Some(last);
    assert Exec(0, loop.children[2], t) == Some(u);
    assert Exec(0, loop.children[3], t) == Some(t);
    assert ExecLoop(0, loop, u) == Some(u);
    assert Exec(1, loop, s) == Some(u);
  }

  lemma {:induction false} MissingRuns(s: State)
    ensures RunsSeq([Missing], s, s)
  {
    assert Exec(0, Missing, s) == Some(s);
    RunsOne(Missing, s, s);
  }

  /** With target j that loop never ends, and one copy of its body does. */
  lemma {:induction false} EndlessLoopUnrolled() returns (loop: Ast)
    ensures ReplacementFor(loop, [Missing]) && forall s, r :: !Runs(loop, s, r)
    ensures !SameMeaning("i", Node(Block, [loop]), Node(Block, [Missing]))
  {
    loop := OnceLoop("i", "j", 1);
    OnceLoopUnrolls("i", "j", 1);
    forall s, r
      ensures !Runs(loop, s, r)
    {
      OtherTargetNeverRuns(loop, "i", [Missing], s, r);
    }
    var s := State(map[], map[]);
    MissingRuns(s);
    RunsBlock([Missing], s, s);
    TargetExact(loop, "i", [Missing]);
  }

  // ----- conditions that do not test the loop variable -----

  /** for (i = 0; 0 < 1; i = i + 1), with an empty body. */
  function ConstantLoop(): Ast {
    Node(For, [Node(Blocking, [Ident("i"), Num(0)]), CompareNums(Lt, 0, 1),
               Node(Blocking, [Ident("i"), Node(Binary(Add), [Ident("i"), Num(1)])]), Missing])
  }

  lemma {:induction false} ConstantLoopNeverEnds(fuel: nat, s: State)
    ensures ExecLoop(fuel, ConstantLoop(), s) == None
    decreases fuel
  {
    EvalComparison(Lt, Num(0), Num(1), s);
    if fuel > 0 && Exec(fuel - 1, ConstantLoop().children[2], s).Some? {
      ConstantLoopNeverEnds(fuel - 1, Exec(fuel - 1, ConstantLoop().children[2], s).value);
    }
  }

  lemma {:induction false} ConstantLoopUnrolls()
    ensures ReplacementFor(ConstantLoop(), [Missing])
  {
    var cond, step := ConstantLoop().children[1], ConstantLoop().children[2].children[1];
    CompareNumsAccepted(Lt, 0, 1, "i");
    assert !IsUnsupportedPost(step, "i");
    var p := MakePlan(ConstantLoop()).value;
    assert StepValue(step.children[0], 0) == Some(0) && StepValue(step.children[1], 0) == Some(1);
    assert p.test(0) == Some(true) && p.step(0) == Some(1) && p.test(1) == Some(false);
    OneCopy(p, 0, 1);
  }

  /** Its condition always holds, so it never ends; but it is accepted, and becomes one copy of its body. */
  lemma {:induction false} ConstantLoopUnrolled()
    ensures ReplacementFor(ConstantLoop(), [Missing]) && forall s, r :: !Runs(ConstantLoop(), s, r)
    ensures !SameMeaning("i", Node(Block, [ConstantLoop()]), Node(Block, [Missing]))
  {
    ConstantLoopUnrolls();
    forall s, r
      ensures !Runs(ConstantLoop(), s, r) && !Runs(Node(Block, [ConstantLoop()]), s, r)
    {
      forall fuel: nat
        ensures Exec(fuel, ConstantLoop(), s) == None
      {
        if Exec(fuel, ConstantLoop().children[0], s).Some? {
          ConstantLoopNeverEnds(fuel, Exec(fuel, ConstantLoop().children[0], s).value);
        }
      }
      RunsBlock([ConstantLoop()], s, r);
      RunsOne(ConstantLoop(), s, r);
    }
    var s := State(map[], map[]);
    MissingRuns(s);
    RunsBlock([Missing], s, s);
  }

  // ----- statements that read the loop variable behind the loop -----

  /** States no expression can tell apart. */
  ghost predicate SameLooks(s: State, t: State) {
    s.later == t.later && forall c: Cell :: Look(s, c) == Look(t, c)
  }

  lemma {:induction false} LongerThanAll(ns: set<string>) returns (n: nat)
    ensures forall x :: x in ns ==> |x| < n
    decreases |ns|
  {
    if ns == {} {
      n := 0;
    } else {
      var x :| x in ns;
      var m := LongerThanAll(ns - {x});
      n := if |x| < m then m else |x| + 1;
      forall y | y in ns
        ensures |y| < n
      {
        assert y == x || y in ns - {x};
      }
    }
  }

  lemma {:induction false} FreshName(ns: set<string>) returns (j: string)
    ensures j !in ns
  {
    var n := LongerThanAll(ns);
    j := seq(n, _ => 'x');
    assert |j| == n;
  }

  lemma {:induction false} UnnamedAbsent(a: Ast, j: string)
    requires j !in Names(a)
    ensures Absent(a, j)
    decreases a
  {
    if a.Node? {
      forall k | 0 <= k < |a.children|
        ensures Absent(a.children[k], j)
      {
        assert Names(a.children[k]) <= Names(a);
        UnnamedAbsent(a.children[k], j);
      }
    }
  }

  /** From states that look the same, statements reach states that look the same. */
  lemma {:induction false} SameLooksFollow(cs: seq<Ast>, s: State, t: State, r: State) returns (r': State)
    requires SameLooks(s, t) && RunsSeq(cs, s, r)
    ensures RunsSeq(cs, t, r') && SameLooks(r, r')
  {
    var a := Node(Block, cs);
    var j := FreshName(Names(a));
    UnnamedAbsent(a, j);
    RunsBlock(cs, s, r);
    var fuel: nat :| Exec(fuel, a, s) == Some(r);
    AbsentBlind(fuel, a, j, s, t);
    AbsentBlind(fuel, a, j, t, s);
    r' := Exec(fuel, a, t).value;
    assert Runs(a, t, r');
    RunsBlock(cs, t, r');
    assert Look(r, Scalar(j)) == Look(s, Scalar(j)) == Look(t, Scalar(j)) == Look(r', Scalar(j));
  }

  lemma {:induction false} OnceLoopRestores(i: string, s: State, t: State)
    requires SameBut(i, s, t)
    ensures SameLooks(s, AfterOnce(i, Look(s, Scalar(i)), t))
  {
    var u := AfterOnce(i, Look(s, Scalar(i)), t);
    forall c: Cell
      ensures Look(s, c) == Look(u, c)
    {
      assert c != Scalar(i) ==> Look(u, c) == Look(t, c);
    }
  }

  ghost predicate KeepsMeaning(loop: Ast, i: string, before: seq<Ast>, copies: seq<Ast>, after: seq<Ast>) {
    GoodFor(loop, i) && ReplacementFor(loop, copies) ==>
      SameMeaning(i, Node(Block, before + [loop] + after), Node(Block, before + copies + after))
  }

  /**
   * Unrolling a loop over i in front of these statements keeps the meaning, whichever loop and whatever
   * comes first.
   */
  ghost predicate KeepsBefore(after: seq<Ast>, i: string) {
    forall loop, before, copies {:trigger KeepsMeaning(loop, i, before, copies, after)} ::
      KeepsMeaning(loop, i, before, copies, after)
  }

  lemma {:induction false} SkipMissing(after: seq<Ast>, t: State, r: State)
    requires RunsSeq([] + [Missing] + after, t, r)
    ensures RunsSeq(after, t, r)
  {
    var fuel: nat :| ExecSeq(fuel, [] + [Missing] + after, t) == Some(r);
    var all := [] + [Missing] + after;
    assert all[0] == Missing && all[1..] == after;
    assert Exec(fuel, Missing, t) == Some(t);
    assert ExecSeq(fuel, all, t) == ExecSeq(fuel, after, t);
    assert ExecSeq(fuel, after, t) == Some(r);
  }

  /** Setting i to the value it has in s by a loop of one iteration shows what the statements make of it. */
  lemma {:induction false} LoopShows(after: seq<Ast>, i: string, s: State, t: State, r: State) returns (r': State)
    requires KeepsBefore(after, i) && SameBut(i, s, t) && RunsSeq(after, s, r)
    ensures RunsSeq(after, t, r') && SameBut(i, r, r')
  {
    var last := Look(s, Scalar(i));
    var loop, u := OnceLoop(i, i, last), AfterOnce(i, last, t);
    OnceLoopRestores(i, s, t);
    var r0 := SameLooksFollow(after, s, u, r);
    OnceLoopRuns(i, last, t);
    RunsOne(loop, t, u);
    JoinRuns([loop], after, t, u, r0);
    RunsBlock([] + [loop] + after, t, r0);
    assert [] + [loop] + after == [loop] + after;
    OnceLoopUnrolls(i, i, last);
    assert KeepsMeaning(loop, i, [], [Missing], after);
    r' :| Runs(Node(Block, [] + [Missing] + after), t, r') && SameBut(i, r0, r');
    RunsBlock([] + [Missing] + after, t, r');
    SkipMissing(after, t, r');
  }

  /** Loops over i can be unrolled in front of statements exactly when these do not depend on i on entry. */
  lemma {:induction false} BlindExact(after: seq<Ast>, i: string)
    ensures KeepsBefore(after, i) <==> Blind(after, i)
  {
    if Blind(after, i) {
      forall loop, before, copies
        ensures KeepsMeaning(loop, i, before, copies, after)
      {
        if GoodFor(loop, i) && ReplacementFor(loop, copies) {
          UnrollingPreservesMeaning(loop, i, before, copies, after);
        }
      }
    }
    if KeepsBefore(after, i) {
      forall s, t, r
        ensures BlindAt(after, i, s, t, r)
      {
        if SameBut(i, s, t) && RunsSeq(after, s, r) {
          var r' := LoopShows(after, i, s, t, r);
        }
      }
    }
  }

  /** A statement that copies the loop variable is not blind: the copies do not set it. */
  lemma {:induction false} LaterReadDiffers()
    ensures !Blind([Node(Blocking, [Ident("j"), Ident("i")])], "i")
  {
    var a := Node(Blocking, [Ident("j"), Ident("i")]);
    var s := State(map[], map[]);
    var t := Write(s, Scalar("i"), 1);
    var r, r0 := Write(t, Scalar("j"), 1), Write(s, Scalar("j"), 0);
    assert Exec(0, a, s) == Some(r0) && Exec(0, a, t) == Some(r);
    RunsOne(a, s, r0);
    RunsOne(a, t, r);
    assert SameBut("i", t, s);
    assert Blind([a], "i") ==> BlindAt([a], "i", t, s, r);
    forall r' | RunsSeq([a], s, r')
      ensures !SameBut("i", r, r')
    {
      RunsOne(a, s, r');
      RunsDeterministic(a, s, r0, r');
      assert Look(r, Scalar("j")) == 1 && Look(r0, Scalar("j")) == 0;
    }
  }
}
