/** Decision diagrams over the inputs of a node, and probabilities of their values. */
module Bdd {
  import opened Cube

  datatype Vertex = Const0 | Const1 | Test(index: nat, if1: nat, if0: nat)

  /** A shared graph; children come before their parents. */
  type Dag = seq<Vertex>

  ghost predicate WellFormed(dag: Dag, inputs: nat) {
    forall v :: 0 <= v < |dag| && dag[v].Test? ==> dag[v].index < inputs && dag[v].if1 < v && dag[v].if0 < v
  }

  /** What is known of one input: how often it is 1, and how often it changes in either direction. */
  datatype Fanin = Fanin(staticProb: real, switchProb: real, prob0to1: real, prob1to0: real)

  /** The probability that an input is 1, given what its literal says it was. */
  function Weight(f: Fanin, l: Literal): real {
    match l
    case Zero => f.prob0to1
    case One => 1.0 - f.prob1to0
    case _ => f.staticProb
  }

  predicate IsProbability(p: real) {
    0.0 <= p <= 1.0
  }

  ghost predicate GoodFanins(fanins: seq<Fanin>) {
    forall i :: 0 <= i < |fanins| ==>
      && IsProbability(fanins[i].staticProb) && IsProbability(fanins[i].prob0to1) && IsProbability(fanins[i].prob1to0)
  }

  function Mix(w: real, x: real, y: real): real {
    w * x + (1.0 - w) * y
  }

  lemma {:induction false} Whole(w: real, top: real)
    ensures w * top + (1.0 - w) * top == top
  {
  }

  lemma {:induction false} AddBounds(a: real, b: real, p: real, q: real, top: real)
    requires 0.0 <= a <= p && 0.0 <= b <= q && p + q == top
    ensures 0.0 <= a + b <= top
  {
  }

  lemma {:induction false} Product(w: real, x: real, top: real)
    requires 0.0 <= w && 0.0 <= x <= top
    ensures 0.0 <= w * x <= w * top
  {
  }

  lemma {:induction false} MixBounds(w: real, x: real, y: real, top: real)
    requires IsProbability(w) && 0.0 <= x <= top && 0.0 <= y <= top
    ensures 0.0 <= Mix(w, x, y) <= top
  {
    Product(w, x, top);
    Product(1.0 - w, y, top);
    Whole(w, top);
    AddBounds(w * x, (1.0 - w) * y, w * top, (1.0 - w) * top, top);
  }

  lemma {:induction false} MixSame(w: real, x: real)
    ensures Mix(w, x, x) == x
  {
  }

  // ----- probability that a diagram takes a value -----

  /** Independent inputs, input k being 1 with probability ws[k]. */
  function Prob(dag: Dag, ws: seq<real>, v: nat, phase: bool): real
    requires v < |dag| && WellFormed(dag, |ws|)
    decreases v
  {
    match dag[v]
    case Const0 => if phase then 0.0 else 1.0
    case Const1 => if phase then 1.0 else 0.0
    case Test(i, if1, if0) => Mix(ws[i], Prob(dag, ws, if1, phase), Prob(dag, ws, if0, phase))
  }

  ghost predicate Probabilities(ws: seq<real>) {
    forall k :: 0 <= k < |ws| ==> IsProbability(ws[k])
  }

  lemma {:induction false} ProbIsProbability(dag: Dag, ws: seq<real>, v: nat, phase: bool)
    requires v < |dag| && WellFormed(dag, |ws|) && Probabilities(ws)
    ensures IsProbability(Prob(dag, ws, v, phase))
    decreases v
  {
    if dag[v].Test? {
      ProbIsProbability(dag, ws, dag[v].if1, phase);
      ProbIsProbability(dag, ws, dag[v].if0, phase);
      MixBounds(ws[dag[v].index], Prob(dag, ws, dag[v].if1, phase), Prob(dag, ws, dag[v].if0, phase), 1.0);
    }
  }

  lemma {:induction false} MixComplement(w: real, x: real, y: real)
    ensures Mix(w, 1.0 - x, 1.0 - y) == 1.0 - Mix(w, x, y)
  {
  }

  lemma {:induction false} PhasesSumToOne(dag: Dag, ws: seq<real>, v: nat)
    requires v < |dag| && WellFormed(dag, |ws|)
    ensures Prob(dag, ws, v, true) + Prob(dag, ws, v, false) == 1.0
    decreases v
  {
    if dag[v].Test? {
      PhasesSumToOne(dag, ws, dag[v].if1);
      PhasesSumToOne(dag, ws, dag[v].if0);
      MixComplement(ws[dag[v].index], Prob(dag, ws, dag[v].if1, true), Prob(dag, ws, dag[v].if0, true));
    }
  }

  // ----- the function a diagram stands for -----

  function Value(dag: Dag, v: nat, a: seq<bool>): bool
    requires v < |dag| && WellFormed(dag, |a|)
    decreases v
  {
    match dag[v]
    case Const0 => false
    case Const1 => true
    case Test(i, if1, if0) => if a[i] then Value(dag, if1, a) else Value(dag, if0, a)
  }

  /** No input below k is tested at v. */
  ghost predicate Above(dag: Dag, v: int, k: nat) {
    0 <= v < |dag| && dag[v].Test? ==> k <= dag[v].index
  }

  /** Inputs are tested in increasing order along every path. */
  ghost predicate Ordered(dag: Dag) {
    forall v :: 0 <= v < |dag| && dag[v].Test? ==>
      Above(dag, dag[v].if1, dag[v].index + 1) && Above(dag, dag[v].if0, dag[v].index + 1)
  }

  /** The expected value of f over all ways to extend the assignment a to all inputs. */
  ghost function Expected(ws: seq<real>, f: seq<bool> -> real, a: seq<bool>): real
    requires |a| <= |ws|
    decreases |ws| - |a|
  {
    if |a| == |ws| then f(a) else Mix(ws[|a|], Expected(ws, f, a + [true]), Expected(ws, f, a + [false]))
  }

  function Is(x: bool, phase: bool): real {
    if x == phase then 1.0 else 0.0
  }

  ghost function Indicator(dag: Dag, inputs: nat, v: nat, phase: bool): seq<bool> -> real
    requires v < |dag| && WellFormed(dag, inputs)
  {
    a => if |a| == inputs then Is(Value(dag, v, a), phase) else 0.0
  }

  /** Following one branch of a vertex whose test the assignment has decided. */
  lemma {:induction false} ExpectedFollows(dag: Dag, ws: seq<real>, v: nat, phase: bool, a: seq<bool>)
    requires v < |dag| && WellFormed(dag, |ws|) && |a| <= |ws|
    requires dag[v].Test? && dag[v].index < |a|
    ensures var c := if a[dag[v].index] then dag[v].if1 else dag[v].if0;
      Expected(ws, Indicator(dag, |ws|, v, phase), a) == Expected(ws, Indicator(dag, |ws|, c, phase), a)
    decreases |ws| - |a|
  {
    if |a| < |ws| {
      ExpectedFollows(dag, ws, v, phase, a + [true]);
      ExpectedFollows(dag, ws, v, phase, a + [false]);
    }
  }

  lemma {:induction false} ExpectedConst(ws: seq<real>, f: seq<bool> -> real, a: seq<bool>, x: real)
    requires |a| <= |ws| && forall b: seq<bool> :: |b| == |ws| ==> f(b) == x
    ensures Expected(ws, f, a) == x
    decreases |ws| - |a|
  {
    if |a| < |ws| {
      ExpectedConst(ws, f, a + [true], x);
      ExpectedConst(ws, f, a + [false], x);
      MixSame(ws[|a|], x);
    }
  }

  /** The recursion over the graph computes the expectation over all assignments. */
  lemma {:induction false} ProbIsExpected(dag: Dag, ws: seq<real>, v: nat, phase: bool, a: seq<bool>)
    requires v < |dag| && WellFormed(dag, |ws|) && Ordered(dag) && |a| <= |ws| && Above(dag, v, |a|)
    ensures Prob(dag, ws, v, phase) == Expected(ws, Indicator(dag, |ws|, v, phase), a)
    decreases |ws| - |a|
  {
    match dag[v] {
      case Const0 => ExpectedConst(ws, Indicator(dag, |ws|, v, phase), a, Is(false, phase));
      case Const1 => ExpectedConst(ws, Indicator(dag, |ws|, v, phase), a, Is(true, phase));
      case Test(i, if1, if0) =>
        if i == |a| {
          assert Above(dag, if1, i + 1) && Above(dag, if0, i + 1);
          ProbIsExpected(dag, ws, if1, phase, a + [true]);
          ProbIsExpected(dag, ws, if0, phase, a + [false]);
          ExpectedFollows(dag, ws, v, phase, a + [true]);
          ExpectedFollows(dag, ws, v, phase, a + [false]);
        } else {
          ProbIsExpected(dag, ws, v, phase, a + [true]);
          ProbIsExpected(dag, ws, v, phase, a + [false]);
          MixSame(ws[|a|], Prob(dag, ws, v, phase));
        }
    }
  }
}
