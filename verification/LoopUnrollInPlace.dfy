/** Replacing a for statement, inside its parent, by the copies of its body. */
module LoopUnrollInPlace {
  import opened Wrappers
  import opened VerilogAst
  import opened LoopUnroll
  import opened LoopUnrollProof

  // ----- a for statement and its block of copies -----

  ghost predicate ReplacementFor(loop: Ast, copies: seq<Ast>) {
    && loop.Node? && loop.tag.For? && |loop.children| == 4 && MakePlan(loop).Some?
    && exists steps: nat ::
      && EndsAfter(MakePlan(loop).value, MakePlan(loop).value.start, steps)
      && Copies(MakePlan(loop).value, loop.children[3], MakePlan(loop).value.start, steps) == Some(copies)
  }

  /** What a good loop does before its first test. */
  lemma {:induction false} ExecStart(fuel: nat, loop: Ast, i: string, s: State)
    requires GoodFor(loop, i)
    ensures Exec(fuel, loop, s) == ExecLoop(fuel, loop, Write(s, Scalar(i), loop.children[0].children[1].value))
  {
    var pre := loop.children[0];
    assert Target(pre.children[0], s) == Some(Scalar(i));
    assert Exec(fuel, pre, s) == Some(Write(s, Scalar(i), pre.children[1].value));
  }

  /** A loop that comes to an end has ended after a fixed number of iterations, whatever its body does. */
  lemma {:induction false} LoopEnds(fuel: nat, loop: Ast, i: string, v: int, s: State) returns (steps: nat)
    requires GoodFor(loop, i) && MakePlan(loop).Some? && MakePlan(loop).value.i == i
    requires Look(s, Scalar(i)) == v && ExecLoop(fuel, loop, s).Some?
    ensures EndsAfter(MakePlan(loop).value, v, steps)
    decreases fuel
  {
    var p, body := MakePlan(loop).value, loop.children[3];
    PlanAgrees(loop, i, s);
    if p.test(v).value {
      SubstExec(fuel - 1, body, i, v, s, s);
      var r := Exec(fuel - 1, body, s).value;
      PlanAgrees(loop, i, r);
      ExecStep(fuel - 1, loop, i, r);
      var v' := p.step(v).value;
      var rest := LoopEnds(fuel - 1, loop, i, v', Write(r, Scalar(i), v'));
      steps := rest + 1;
    } else {
      steps := 0;
    }
  }

  lemma {:induction false} StartSame(i: string, s: State, t: State, v: int)
    requires SameBut(i, s, t)
    ensures SameBut(i, Write(s, Scalar(i), v), t)
  {
    forall d: Cell | d != Scalar(i)
      ensures Look(Write(s, Scalar(i), v), d) == Look(t, d)
    {
      assert Look(s, d) == Look(t, d);
    }
  }

  /** Whenever the loop runs to an end, so do its copies, and only the loop variable may differ. */
  lemma {:induction false} CopiesDoWhatLoopDoes(fuel: nat, loop: Ast, i: string, s: State, t: State)
    returns (copies: seq<Ast>)
    requires GoodFor(loop, i) && SameBut(i, s, t) && Exec(fuel, loop, s).Some?
    ensures ReplacementFor(loop, copies) && ExecSeq(fuel, copies, t).Some?
    ensures SameBut(i, Exec(fuel, loop, s).value, ExecSeq(fuel, copies, t).value)
  {
    GoodPlan(loop, i);
    ExecStart(fuel, loop, i, s);
    var p := MakePlan(loop).value;
    var u := Write(s, Scalar(i), p.start);
    StartSame(i, s, t, p.start);
    var steps := LoopEnds(fuel, loop, i, p.start, u);
    CopiesFollowLoop(fuel, loop, i, p.start, steps, u, t);
    copies := Copies(p, loop.children[3], p.start, steps).value;
  }

  /** And the copies do nothing the loop would not have done. */
  lemma {:induction false} LoopDoesWhatCopiesDo(fuel: nat, loop: Ast, i: string, copies: seq<Ast>, s: State, t: State)
    returns (more: nat)
    requires GoodFor(loop, i) && SameBut(i, s, t) && ReplacementFor(loop, copies) && ExecSeq(fuel, copies, t).Some?
    ensures more >= fuel && Exec(more, loop, s).Some?
    ensures SameBut(i, Exec(more, loop, s).value, ExecSeq(fuel, copies, t).value)
  {
    GoodPlan(loop, i);
    var p := MakePlan(loop).value;
    var steps: nat :| EndsAfter(p, p.start, steps) && Copies(p, loop.children[3], p.start, steps) == Some(copies);
    StartSame(i, s, t, p.start);
    LoopFollowsCopies(fuel, loop, i, p.start, steps, Write(s, Scalar(i), p.start), t);
    more := fuel + steps;
    ExecStart(more, loop, i, s);
  }

  lemma {:induction false} ReplacementUnique(p: Plan, body: Ast, v: int, m: nat, n: nat)
    requires EndsAfter(p, v, m) && EndsAfter(p, v, n)
    ensures Copies(p, body, v, m) == Copies(p, body, v, n)
    decreases m
  {
    if p.test(v) == Some(true) && p.step(v).Some? {
      ReplacementUnique(p, body, p.step(v).value, m - 1, n - 1);
    }
  }

  // ----- code around the loop -----

  /** Code that neither reads nor writes i. */
  predicate Absent(a: Ast, i: string)
    decreases a
  {
    match a
    case Ident(x) => x != i
    case Node(_, cs) => forall k :: 0 <= k < |cs| ==> Absent(cs[k], i)
    case _ => true
  }

  lemma {:induction false} AbsentIsNotFilled(a: Ast, i: string, v: int)
    requires Absent(a, i)
    ensures FillChild(a, i, v) == a && Fill(a, i, v) == a && NeverAssigns(a, i)
    decreases a
  {
    if a.Node? {
      var cs := a.children;
      forall k | 0 <= k < |cs|
        ensures FillChild(cs[k], i, v) == cs[k] && Fill(cs[k], i, v) == cs[k] && NeverAssigns(cs[k], i)
      {
        AbsentIsNotFilled(cs[k], i, v);
      }
      assert FillChildren(cs, i, v) == cs;
      if cs != [] {
        assert [cs[0]] + cs[1..] == cs;
      }
    }
  }

  /** Such code cannot tell apart states that differ in i only. */
  lemma {:induction false} AbsentBlind(fuel: nat, a: Ast, i: string, s: State, t: State)
    requires Absent(a, i) && SameBut(i, s, t)
    ensures SameOutcome(i, Look(s, Scalar(i)), Exec(fuel, a, s), Exec(fuel, a, t))
  {
    AbsentIsNotFilled(a, i, Look(s, Scalar(i)));
    SubstExec(fuel, a, i, Look(s, Scalar(i)), s, t);
  }

  lemma {:induction false} SameButJoins(i: string, s: State, t: State, u: State)
    requires SameBut(i, s, t) && SameBut(i, u, t)
    ensures SameBut(i, s, u)
  {
    forall d: Cell | d != Scalar(i)
      ensures Look(s, d) == Look(u, d)
    {
      assert Look(s, d) == Look(t, d) && Look(u, d) == Look(t, d);
    }
  }

  /** Nor can another loop over i, which sets i first. */
  lemma {:induction false} LoopBlind(a: Ast, i: string, s: State, t: State, r: State) returns (r': State)
    requires GoodFor(a, i) && SameBut(i, s, t) && Runs(a, s, r)
    ensures Runs(a, t, r') && SameBut(i, r, r')
  {
    var fuel: nat :| Exec(fuel, a, s) == Some(r);
    var copies := CopiesDoWhatLoopDoes(fuel, a, i, s, t);
    var more := LoopDoesWhatCopiesDo(fuel, a, i, copies, t, t);
    r' := Exec(more, a, t).value;
    SameButJoins(i, r, ExecSeq(fuel, copies, t).value, r');
  }

  /** Statements whose outcome does not depend on i on entry. */
  ghost predicate Indifferent(a: Ast, i: string) {
    Absent(a, i) || GoodFor(a, i)
  }

  // ----- statement lists -----

  ghost predicate RunsSeq(cs: seq<Ast>, s: State, r: State) {
    exists fuel: nat :: ExecSeq(fuel, cs, s) == Some(r)
  }

  lemma {:induction false} RunsBlock(cs: seq<Ast>, s: State, r: State)
    ensures Runs(Node(Block, cs), s, r) <==> RunsSeq(cs, s, r)
  {
    if Runs(Node(Block, cs), s, r) {
      var fuel: nat :| Exec(fuel, Node(Block, cs), s) == Some(r);
      assert ExecSeq(fuel, cs, s) == Some(r);
    }
    if RunsSeq(cs, s, r) {
      var fuel: nat :| ExecSeq(fuel, cs, s) == Some(r);
      assert Exec(fuel, Node(Block, cs), s) == Some(r);
    }
  }

  lemma {:induction false} RunsOne(a: Ast, s: State, r: State)
    ensures Runs(a, s, r) <==> RunsSeq([a], s, r)
  {
    forall fuel: nat
      ensures ExecSeq(fuel, [a], s) == Exec(fuel, a, s)
    {
      assert [a][1..] == [];
    }
    if Runs(a, s, r) {
      var fuel: nat :| Exec(fuel, a, s) == Some(r);
      assert ExecSeq(fuel, [a], s) == Some(r);
    }
    if RunsSeq([a], s, r) {
      var fuel: nat :| ExecSeq(fuel, [a], s) == Some(r);
      assert Exec(fuel, a, s) == Some(r);
    }
  }

  lemma {:induction false} SplitRun(a: seq<Ast>, b: seq<Ast>, s: State, r: State) returns (u: State)
    requires RunsSeq(a + b, s, r)
    ensures RunsSeq(a, s, u) && RunsSeq(b, u, r)
  {
    var fuel: nat :| ExecSeq(fuel, a + b, s) == Some(r);
    ExecSeqAppend(fuel, a, b, s);
    u := ExecSeq(fuel, a, s).value;
    assert ExecSeq(fuel, b, u) == Some(r);
  }

  lemma {:induction false} JoinRuns(a: seq<Ast>, b: seq<Ast>, s: State, u: State, r: State)
    requires RunsSeq(a, s, u) && RunsSeq(b, u, r)
    ensures RunsSeq(a + b, s, r)
  {
    var f: nat :| ExecSeq(f, a, s) == Some(u);
    var g: nat :| ExecSeq(g, b, u) == Some(r);
    ExecSeqMonotone(f, f + g, a, s);
    ExecSeqMonotone(g, f + g, b, u);
    ExecSeqAppend(f + g, a, b, s);
    assert ExecSeq(f + g, a + b, s) == Some(r);
  }

  lemma {:induction false} IndifferentFollows(cs: seq<Ast>, i: string, s: State, t: State, r: State) returns (r': State)
    requires (forall k :: 0 <= k < |cs| ==> Indifferent(cs[k], i)) && SameBut(i, s, t) && RunsSeq(cs, s, r)
    ensures RunsSeq(cs, t, r') && SameBut(i, r, r')
    decreases |cs|
  {
    if cs == [] {
      r' := t;
      assert ExecSeq(0, cs, t) == Some(t);
    } else {
      var head, tail := cs[0], cs[1..];
      assert [head] + tail == cs;
      var u := SplitRun([head], tail, s, r);
      RunsOne(head, s, u);
      var u' := t;
      if Absent(head, i) {
        var fuel: nat :| Exec(fuel, head, s) == Some(u);
        AbsentBlind(fuel, head, i, s, t);
        u' := Exec(fuel, head, t).value;
      } else {
        u' := LoopBlind(head, i, s, t, u);
      }
      RunsOne(head, t, u');
      r' := IndifferentFollows(tail, i, u, u', r);
      JoinRuns([head], tail, t, u', r');
    }
  }

  /** What the statements do from s they also do from t, a state that differs from s in i only. */
  ghost predicate BlindAt(cs: seq<Ast>, i: string, s: State, t: State, r: State) {
    SameBut(i, s, t) && RunsSeq(cs, s, r) ==> exists r' :: RunsSeq(cs, t, r') && SameBut(i, r, r')
  }

  /** The statements end alike from states that differ in i only. */
  ghost predicate Blind(cs: seq<Ast>, i: string) {
    forall s, t, r {:trigger BlindAt(cs, i, s, t, r)} :: BlindAt(cs, i, s, t, r)
  }

  /** In particular if each leaves the loop variable alone or is itself a loop over it. */
  lemma {:induction false} IndifferentBlind(cs: seq<Ast>, i: string)
    requires forall k :: 0 <= k < |cs| ==> Indifferent(cs[k], i)
    ensures Blind(cs, i)
  {
    forall s, t, r
      ensures BlindAt(cs, i, s, t, r)
    {
      if SameBut(i, s, t) && RunsSeq(cs, s, r) {
        var r' := IndifferentFollows(cs, i, s, t, r);
      }
    }
  }

  // ----- the loop where it stands -----

  lemma {:induction false} SameReplacement(loop: Ast, a: seq<Ast>, b: seq<Ast>)
    requires ReplacementFor(loop, a) && ReplacementFor(loop, b)
    ensures a == b
  {
    var p := MakePlan(loop).value;
    var m: nat :| EndsAfter(p, p.start, m) && Copies(p, loop.children[3], p.start, m) == Some(a);
    var n: nat :| EndsAfter(p, p.start, n) && Copies(p, loop.children[3], p.start, n) == Some(b);
    ReplacementUnique(p, loop.children[3], p.start, m, n);
  }

  lemma {:induction false} BlindFollows(cs: seq<Ast>, i: string, s: State, t: State, r: State) returns (r': State)
    requires Blind(cs, i) && SameBut(i, s, t) && RunsSeq(cs, s, r)
    ensures RunsSeq(cs, t, r') && SameBut(i, r, r')
  {
    assert BlindAt(cs, i, s, t, r);
    r' :| RunsSeq(cs, t, r') && SameBut(i, r, r');
  }

  lemma {:induction false} CopiesForLoop(loop: Ast, i: string, copies: seq<Ast>, u: State, v: State) returns (v': State)
    requires GoodFor(loop, i) && ReplacementFor(loop, copies) && RunsSeq([loop], u, v)
    ensures RunsSeq(copies, u, v') && SameBut(i, v, v')
  {
    RunsOne(loop, u, v);
    var fuel: nat :| Exec(fuel, loop, u) == Some(v);
    var made := CopiesDoWhatLoopDoes(fuel, loop, i, u, u);
    SameReplacement(loop, copies, made);
    v' := ExecSeq(fuel, copies, u).value;
  }

  lemma {:induction false} LoopForCopies(loop: Ast, i: string, copies: seq<Ast>, u: State, v': State) returns (v: State)
    requires GoodFor(loop, i) && ReplacementFor(loop, copies) && RunsSeq(copies, u, v')
    ensures RunsSeq([loop], u, v) && SameBut(i, v', v)
  {
    var fuel: nat :| ExecSeq(fuel, copies, u) == Some(v');
    var more := LoopDoesWhatCopiesDo(fuel, loop, i, copies, u, u);
    v := Exec(more, loop, u).value;
    assert Runs(loop, u, v);
    RunsOne(loop, u, v);
    SameButJoins(i, v', v', v');
    SameButJoins(i, v', v', v);
  }

  lemma {:induction false} BlockFollows(loop: Ast, i: string, before: seq<Ast>, copies: seq<Ast>, after: seq<Ast>,
                                        s: State, r: State)
    returns (r': State)
    requires GoodFor(loop, i) && ReplacementFor(loop, copies)
    requires Blind(after, i)
    requires RunsSeq(before + [loop] + after, s, r)
    ensures RunsSeq(before + copies + after, s, r') && SameBut(i, r, r')
  {
    var v := SplitRun(before + [loop], after, s, r);
    var u := SplitRun(before, [loop], s, v);
    var v' := CopiesForLoop(loop, i, copies, u, v);
    r' := BlindFollows(after, i, v, v', r);
    JoinRuns(before, copies, s, u, v');
    JoinRuns(before + copies, after, s, v', r');
  }

  lemma {:induction false} BlockLeads(loop: Ast, i: string, before: seq<Ast>, copies: seq<Ast>, after: seq<Ast>,
                                      s: State, r': State)
    returns (r: State)
    requires GoodFor(loop, i) && ReplacementFor(loop, copies)
    requires Blind(after, i)
    requires RunsSeq(before + copies + after, s, r')
    ensures RunsSeq(before + [loop] + after, s, r) && SameBut(i, r', r)
  {
    var v' := SplitRun(before + copies, after, s, r');
    var u := SplitRun(before, copies, s, v');
    var v := LoopForCopies(loop, i, copies, u, v');
    r := BlindFollows(after, i, v', v, r');
    JoinRuns(before, [loop], s, u, v);
    JoinRuns(before + [loop], after, s, v, r);
  }

  /** Two statement lists reach the same results, but for i. */
  ghost predicate SameMeaning(i: string, a: Ast, b: Ast) {
    && (forall s, r :: Runs(a, s, r) ==> exists r' :: Runs(b, s, r') && SameBut(i, r, r'))
    && (forall s, r' :: Runs(b, s, r') ==> exists r :: Runs(a, s, r) && SameBut(i, r', r))
  }

  /**
   * Unrolling a loop where it stands keeps the meaning of the enclosing block, provided the value the loop
   * variable has behind the loop makes no difference.
   */
  lemma {:induction false} UnrollingPreservesMeaning(loop: Ast, i: string, before: seq<Ast>, copies: seq<Ast>,
                                                     after: seq<Ast>)
    requires GoodFor(loop, i) && ReplacementFor(loop, copies)
    requires Blind(after, i)
    ensures SameMeaning(i, Node(Block, before + [loop] + after), Node(Block, before + copies + after))
  {
    var a, b := before + [loop] + after, before + copies + after;
    forall s, r | Runs(Node(Block, a), s, r)
      ensures exists r' :: Runs(Node(Block, b), s, r') && SameBut(i, r, r')
    {
      RunsBlock(a, s, r);
      var r' := BlockFollows(loop, i, before, copies, after, s, r);
      RunsBlock(b, s, r');
    }
    forall s, r' | Runs(Node(Block, b), s, r')
      ensures exists r :: Runs(Node(Block, a), s, r) && SameBut(i, r', r)
    {
      RunsBlock(b, s, r');
      var r := BlockLeads(loop, i, before, copies, after, s, r');
      RunsBlock(a, s, r);
    }
  }

  /** In particular the block made for a loop means what the loop meant. */
  lemma {:induction false} UnrolledLoopMeansLoop(loop: Ast, i: string, copies: seq<Ast>)
    requires GoodFor(loop, i) && ReplacementFor(loop, copies)
    ensures SameMeaning(i, Node(Block, [loop]), Node(Block, copies))
  {
    IndifferentBlind([], i);
    UnrollingPreservesMeaning(loop, i, [], copies, []);
    assert [] + [loop] + [] == [loop] && [] + copies + [] == copies;
  }

  // ----- the parent's list of children -----

  /** A node as its parents see it: two nodes may hold equal trees. */
  class Handle {
    const tree: Ast

    constructor (tree: Ast)
      ensures this.tree == tree
    {
      this.tree := tree;
    }
  }

  /** The trees under a list of children, an empty slot being a missing statement. */
  function Trees(cs: seq<Handle?>): (r: seq<Ast>)
    ensures |r| == |cs|
    ensures forall k :: 0 <= k < |cs| ==> r[k] == if cs[k] == null then Missing else cs[k].tree
  {
    if cs == [] then [] else [if cs[0] == null then Missing else cs[0].tree] + Trees(cs[1..])
  }

  lemma {:induction false} TreesAppend(a: seq<Handle?>, b: seq<Handle?>)
    ensures Trees(a + b) == Trees(a) + Trees(b)
  {
  }

  /** The children with n copies of a loop in place of the loop. */
  ghost predicate UnrolledAt(node: Handle, place: nat, n: nat, was: seq<Handle?>, now: seq<Handle?>) {
    && place < |was| && n > 0 && |now| == |was| - 1 + n
    && now[..place] == was[..place] && now[place + n..] == was[place + 1..]
    && ReplacementFor(node.tree, Trees(now[place..place + n]))
  }

  lemma {:induction false} OneMoreCopy(added: seq<Handle?>, child: Handle, copies: seq<Ast>)
    requires |added| < |copies| && Trees(added) == copies[..|added|] && child.tree == copies[|added|]
    ensures Trees(added + [child]) == copies[..|added| + 1]
  {
    TreesAppend(added, [child]);
    assert Trees([child]) == [copies[|added|]];
    assert copies[..|added| + 1] == copies[..|added|] + [copies[|added|]];
  }

  lemma {:induction false} InsertedNext(was: seq<Handle?>, added: seq<Handle?>, child: Handle, i: nat)
    requires i <= |was|
    ensures var now, j := was[..i] + added + was[i..], i + |added|;
      now[..j] + [child] + now[j..] == was[..i] + (added + [child]) + was[i..]
  {
  }

  lemma {:induction false} TreesSplice(all: seq<Handle?>, a: seq<Handle?>, b: seq<Handle?>, c: seq<Handle?>)
    requires all == a + b + c
    ensures Trees(all) == Trees(a) + Trees(b) + Trees(c)
    ensures |b| == 1 && b[0] != null ==> Trees(b) == [b[0].tree]
  {
    TreesAppend(a + b, c);
    TreesAppend(a, b);
  }

  /** The lists before and after, cut at the loop. */
  lemma {:induction false} UnrolledParts(node: Handle, place: nat, n: nat, was: seq<Handle?>, now: seq<Handle?>)
    requires UnrolledAt(node, place, n, was, now) && was[place] == node
    ensures was == was[..place] + [node] + was[place + 1..]
    ensures now == was[..place] + now[place..place + n] + was[place + 1..]
  {
  }

  /** What UnrollForLoop leaves behind means what it found. */
  lemma {:induction false} InPlacePreservesMeaning(node: Handle, i: string, place: nat, n: nat, was: seq<Handle?>,
                                                   now: seq<Handle?>)
    requires UnrolledAt(node, place, n, was, now) && was[place] == node && GoodFor(node.tree, i)
    requires Blind(Trees(was[place + 1..]), i)
    ensures SameMeaning(i, Node(Block, Trees(was)), Node(Block, Trees(now)))
  {
    var before, copies, after := was[..place], now[place..place + n], was[place + 1..];
    UnrolledParts(node, place, n, was, now);
    TreesSplice(was, before, [node], after);
    TreesSplice(now, before, copies, after);
    UnrollingPreservesMeaning(node.tree, i, Trees(before), Trees(copies), Trees(after));
  }

  lemma {:induction false} NoReplacement(loop: Ast, steps: nat)
    requires loop.Node? && loop.tag.For? && |loop.children| == 4
    requires MakePlan(loop).Some? ==> EndsAfter(MakePlan(loop).value, MakePlan(loop).value.start, steps)
    requires MakePlan(loop).Some? ==>
      var c := Copies(MakePlan(loop).value, loop.children[3], MakePlan(loop).value.start, steps);
      c.None? || c.value == []
    ensures !exists copies :: copies != [] && ReplacementFor(loop, copies)
  {
    forall copies: seq<Ast> | copies != []
      ensures !ReplacementFor(loop, copies)
    {
      if ReplacementFor(loop, copies) {
        var p := MakePlan(loop).value;
        var n: nat :| EndsAfter(p, p.start, n) && Copies(p, loop.children[3], p.start, n) == Some(copies);
        ReplacementUnique(p, loop.children[3], p.start, steps, n);
      }
    }
  }

  class ParentNode {
    var children: seq<Handle?>

    /** Makes room at the end and shifts the later children up by one. */
    method AddChildAtIndex(child: Handle?, index: int)
      modifies this
      ensures 0 <= index <= |old(children)| ==> children == old(children)[..index] + [child] + old(children)[index..]
      ensures !(0 <= index <= |old(children)|) ==> children == old(children)
    {
      if index < 0 || index > |children| {
        return;
      }
      ghost var was := children;
      children := children + [null];
      var k := |children| - 1;
      while k > index
        invariant index <= k <= |was| && |children| == |was| + 1
        invariant forall j :: 0 <= j < k ==> children[j] == was[j]
        invariant forall j :: k < j <= |was| ==> children[j] == was[j - 1]
      {
        children := children[k := children[k - 1]];
        k := k - 1;
      }
      children := children[index := child];
      assert children == was[..index] + [child] + was[index..];
    }

    /** Shifts the later children down by one and drops the last slot. */
    method RemoveChildAtIndex(index: int)
      modifies this
      ensures 0 <= index < |old(children)| ==> children == old(children)[..index] + old(children)[index + 1..]
      ensures !(0 <= index < |old(children)|) ==> children == old(children)
    {
      if index < 0 || index >= |children| {
        return;
      }
      ghost var was := children;
      children := children[index := null];
      var k := index;
      while k < |children| - 1
        invariant index <= k < |was| && |children| == |was|
        invariant forall j :: 0 <= j < index ==> children[j] == was[j]
        invariant forall j :: index <= j < k ==> children[j] == was[j + 1]
        invariant forall j :: k < j < |was| ==> children[j] == was[j]
      {
        children := children[k := children[k + 1]];
        children := children[k + 1 := null];
        k := k + 1;
      }
      children := children[..|children| - 1];
      assert children == was[..index] + was[index + 1..];
    }

    /** Adds one child for each copy, from position i on. */
    method InsertCopies(copies: seq<Ast>, i: nat)
      requires i <= |children|
      modifies this
      ensures |children| == |old(children)| + |copies|
      ensures children[..i] == old(children)[..i] && children[i + |copies|..] == old(children)[i..]
      ensures Trees(children[i..i + |copies|]) == copies
    {
      ghost var was := children;
      ghost var added: seq<Handle?> := [];
      var j := i;
      while j < |copies| + i
        invariant i <= j <= |copies| + i && |added| == j - i
        invariant children == was[..i] + added + was[i..]
        invariant Trees(added) == copies[..j - i]
      {
        var child := new Handle(copies[j - i]);
        OneMoreCopy(added, child, copies);
        AddChildAtIndex(child, j);
        InsertedNext(was, added, child, i);
        added := added + [child];
        j := j + 1;
      }
      assert children[i..i + |copies|] == added;
    }

    /** The first place of a node among the children. */
    method FindChild(node: Handle) returns (i: nat)
      requires node in children
      ensures i < |children| && children[i] == node && node !in children[..i]
    {
      i := 0;
      while children[i] != node
        invariant 0 <= i < |children| && node !in children[..i] && node in children[i..]
        decreases |children| - i
      {
        i := i + 1;
      }
    }

    /** Inserts the copies before the loop at position i, then removes the loop. */
    method ReplaceByCopies(node: Handle, copies: seq<Ast>, i: nat)
      requires i < |children| && children[i] == node && copies != [] && ReplacementFor(node.tree, copies)
      modifies this
      ensures UnrolledAt(node, i, |copies|, old(children), children)
    {
      ghost var was := children;
      InsertCopies(copies, i);
      var j := i + |copies|;
      ghost var middle := children;
      assert middle[j] == middle[j..][0] == node;
      RemoveChildAtIndex(j);
      ghost var now := children;
      assert now[..i] == middle[..i];
      assert now[i..j] == middle[i..j];
      assert now[j..] == middle[j..][1..] == was[i + 1..];
    }

    /** Puts the copies of a loop's body in the loop's place; fails, changing nothing, if there are none. */
    method UnrollForLoop(node: Handle, ghost steps: nat) returns (ok: bool, numUnrolled: nat, ghost place: nat)
      requires node in children
      requires node.tree.Node? && node.tree.tag.For? && |node.tree.children| == 4
      requires MakePlan(node.tree).Some? ==>
        EndsAfter(MakePlan(node.tree).value, MakePlan(node.tree).value.start, steps)
      modifies this
      ensures place < |old(children)| && old(children)[place] == node && node !in old(children)[..place]
      ensures ok <==> exists copies :: copies != [] && ReplacementFor(node.tree, copies)
      ensures !ok ==> children == old(children)
      ensures ok ==> UnrolledAt(node, place, numUnrolled, old(children), children)
    {
      var unrolled := ResolveFor(node.tree, steps);
      var i := FindChild(node);
      place := i;
      if unrolled.None? {
        NoReplacement(node.tree, steps);
        return false, 0, place;
      }
      var copies := unrolled.value.children;
      assert ReplacementFor(node.tree, copies);
      ReplaceByCopies(node, copies, i);
      ok, numUnrolled := true, |copies|;
    }
  }
}
