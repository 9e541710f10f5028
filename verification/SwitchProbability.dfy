/** The probability that a node switches, from its decision diagram and the activity of its fanins. */
module SwitchProbability {
  import opened Cube
  import opened Bdd

  // ----- what the recursion computes -----

  function Weights(fanins: seq<Fanin>, lits: seq<Literal>): (ws: seq<real>)
    requires |lits| == |fanins|
    ensures |ws| == |fanins| && forall k :: 0 <= k < |ws| ==> ws[k] == Weight(fanins[k], lits[k])
  {
    seq(|fanins|, k requires 0 <= k < |fanins| => Weight(fanins[k], lits[k]))
  }

  /** The chance that `next` becomes `phase`, given what the literals say of the inputs before. */
  function Becomes(dag: Dag, fanins: seq<Fanin>, next: nat, lits: seq<Literal>, phase: bool): real
    requires next < |dag| && WellFormed(dag, |fanins|) && |lits| == |fanins|
  {
    Prob(dag, Weights(fanins, lits), next, phase)
  }

  predicate IsLeafOf(x: Vertex, value: bool) {
    x == if value then Const1 else Const0
  }

  function Both(p: real, q: real): real {
    p * q
  }

  /** The recursion of the source; at a leaf the probability of the path comes in twice. */
  function Switch(dag: Dag, fanins: seq<Fanin>, next: nat, v: nat, lits: seq<Literal>, p1: real, phase: bool): real
    requires next < |dag| && v < |dag| && WellFormed(dag, |fanins|) && |lits| == |fanins|
    decreases v
  {
    match dag[v]
    case Test(i, if1, if0) =>
      Switch(dag, fanins, next, if1, lits[i := One], Both(p1, fanins[i].staticProb), phase)
      + Switch(dag, fanins, next, if0, lits[i := Zero], Both(p1, 1.0 - fanins[i].staticProb), phase)
    case leaf => if IsLeafOf(leaf, phase) then 0.0 else Becomes(dag, fanins, next, lits, phase) * p1 * p1
  }

  /** The chance that v has the opposite value before and `next` has value `phase` after. */
  function Transition(dag: Dag, fanins: seq<Fanin>, next: nat, v: nat, lits: seq<Literal>, phase: bool): real
    requires next < |dag| && v < |dag| && WellFormed(dag, |fanins|) && |lits| == |fanins|
    decreases v
  {
    match dag[v]
    case Test(i, if1, if0) =>
      Mix(fanins[i].staticProb, Transition(dag, fanins, next, if1, lits[i := One], phase),
          Transition(dag, fanins, next, if0, lits[i := Zero], phase))
    case leaf => if IsLeafOf(leaf, phase) then 0.0 else Becomes(dag, fanins, next, lits, phase)
  }

  lemma {:induction false} BecomesIsProbability(dag: Dag, fanins: seq<Fanin>, next: nat, lits: seq<Literal>,
                                                phase: bool)
    requires next < |dag| && WellFormed(dag, |fanins|) && |lits| == |fanins| && GoodFanins(fanins)
    ensures IsProbability(Becomes(dag, fanins, next, lits, phase))
  {
    ProbIsProbability(dag, Weights(fanins, lits), next, phase);
  }

  lemma {:induction false} TransitionIsProbability(dag: Dag, fanins: seq<Fanin>, next: nat, v: nat,
                                                   lits: seq<Literal>, phase: bool)
    requires next < |dag| && v < |dag| && WellFormed(dag, |fanins|) && |lits| == |fanins| && GoodFanins(fanins)
    ensures IsProbability(Transition(dag, fanins, next, v, lits, phase))
    decreases v
  {
    match dag[v] {
      case Test(i, if1, if0) =>
        TransitionIsProbability(dag, fanins, next, if1, lits[i := One], phase);
        TransitionIsProbability(dag, fanins, next, if0, lits[i := Zero], phase);
        MixBounds(fanins[i].staticProb, Transition(dag, fanins, next, if1, lits[i := One], phase),
                  Transition(dag, fanins, next, if0, lits[i := Zero], phase), 1.0);
      case _ => BecomesIsProbability(dag, fanins, next, lits, phase);
    }
  }

  // ----- how far the code is from the transition probability -----

  /** No path weighted strictly between 0 and 1 ends where a transition is possible. */
  ghost predicate NothingLost(dag: Dag, fanins: seq<Fanin>, next: nat, v: nat, lits: seq<Literal>, p1: real,
                              phase: bool)
    requires next < |dag| && v < |dag| && WellFormed(dag, |fanins|) && |lits| == |fanins|
    decreases v
  {
    match dag[v]
    case Test(i, if1, if0) =>
      && NothingLost(dag, fanins, next, if1, lits[i := One], Both(p1, fanins[i].staticProb), phase)
      && NothingLost(dag, fanins, next, if0, lits[i := Zero], Both(p1, 1.0 - fanins[i].staticProb), phase)
    case leaf => IsLeafOf(leaf, phase) || p1 == 0.0 || p1 == 1.0 || Becomes(dag, fanins, next, lits, phase) == 0.0
  }

  /** The recursion with the path's probability taken once. */
  function SwitchOnce(dag: Dag, fanins: seq<Fanin>, next: nat, v: nat, lits: seq<Literal>, p1: real, phase: bool): real
    requires next < |dag| && v < |dag| && WellFormed(dag, |fanins|) && |lits| == |fanins|
    decreases v
  {
    match dag[v]
    case Test(i, if1, if0) =>
      SwitchOnce(dag, fanins, next, if1, lits[i := One], Both(p1, fanins[i].staticProb), phase)
      + SwitchOnce(dag, fanins, next, if0, lits[i := Zero], Both(p1, 1.0 - fanins[i].staticProb), phase)
    case leaf => if IsLeafOf(leaf, phase) then 0.0 else Both(p1, Becomes(dag, fanins, next, lits, phase))
  }

  lemma {:induction false} BothIsProbability(p: real, q: real)
    requires IsProbability(p) && IsProbability(q)
    ensures IsProbability(Both(p, q)) && Both(p, q) <= p
  {
    Product(p, q, 1.0);
    var r := Both(p, q);
    assert r == p * q;
    assert 0.0 <= r <= p;
  }

  lemma {:induction false} BothSplits(p: real, w: real)
    ensures Both(p, w) + Both(p, 1.0 - w) == p
  {
  }

  /** Between nothing and the path's share, which it meets exactly when nothing is lost. */
  ghost predicate Within(s: real, once: real, p1: real, exact: bool) {
    0.0 <= s <= once <= p1 && (s == once <==> exact)
  }

  lemma {:induction false} Regroup(b: real, p1: real, x: real, s: real)
    requires x == p1 * b && s == x * p1
    ensures b * p1 * p1 == s
  {
    assert p1 * b == b * p1;
  }

  lemma {:induction false} BothIsZero(p: real, q: real)
    ensures Both(p, q) == 0.0 <==> p == 0.0 || q == 0.0
  {
  }

  lemma {:induction false} BothIsSame(x: real, y: real)
    ensures Both(x, y) == x <==> x == 0.0 || y == 1.0
  {
    assert Both(x, y) - x == x * (y - 1.0);
  }

  lemma {:induction false} Squared(b: real, p1: real)
    requires IsProbability(b) && IsProbability(p1)
    ensures Within(b * p1 * p1, Both(p1, b), p1, p1 == 0.0 || p1 == 1.0 || b == 0.0)
  {
    var x := Both(p1, b);
    var s := Both(x, p1);
    BothIsProbability(p1, b);
    BothIsProbability(x, p1);
    Regroup(b, p1, x, s);
    BothIsZero(p1, b);
    BothIsSame(x, p1);
  }

  /** The code never claims more than taking each path's probability once would, and says when it claims less. */
  lemma {:induction false} SwitchBounds(dag: Dag, fanins: seq<Fanin>, next: nat, v: nat, lits: seq<Literal>,
                                        p1: real, phase: bool)
    requires next < |dag| && v < |dag| && WellFormed(dag, |fanins|) && |lits| == |fanins|
    requires GoodFanins(fanins) && IsProbability(p1)
    ensures Within(Switch(dag, fanins, next, v, lits, p1, phase), SwitchOnce(dag, fanins, next, v, lits, p1, phase), p1,
                   NothingLost(dag, fanins, next, v, lits, p1, phase))
    decreases v
  {
    if dag[v].Test? {
      var i, w := dag[v].index, fanins[dag[v].index].staticProb;
      BothIsProbability(p1, w);
      BothIsProbability(p1, 1.0 - w);
      BothSplits(p1, w);
      SwitchBounds(dag, fanins, next, dag[v].if1, lits[i := One], Both(p1, w), phase);
      SwitchBounds(dag, fanins, next, dag[v].if0, lits[i := Zero], Both(p1, 1.0 - w), phase);
    } else {
      BecomesIsProbability(dag, fanins, next, lits, phase);
      Squared(Becomes(dag, fanins, next, lits, phase), p1);
    }
  }

  lemma {:induction false} MixShares(p1: real, w: real, t: real, y: real)
    ensures Both(Both(p1, w), t) + Both(Both(p1, 1.0 - w), y) == Both(p1, Mix(w, t, y))
  {
    calc {
      Both(p1, Mix(w, t, y));
      p1 * (w * t + (1.0 - w) * y);
      (p1 * w) * t + (p1 * (1.0 - w)) * y;
      Both(Both(p1, w), t) + Both(Both(p1, 1.0 - w), y);
    }
  }

  /** Taken once, the path's probability multiplies the transition probability below it. */
  lemma {:induction false} SwitchOnceIsTransition(dag: Dag, fanins: seq<Fanin>, next: nat, v: nat,
                                                  lits: seq<Literal>, p1: real, phase: bool)
    requires next < |dag| && v < |dag| && WellFormed(dag, |fanins|) && |lits| == |fanins|
    ensures SwitchOnce(dag, fanins, next, v, lits, p1, phase) == Both(p1, Transition(dag, fanins, next, v, lits, phase))
    decreases v
  {
    if dag[v].Test? {
      var i, w := dag[v].index, fanins[dag[v].index].staticProb;
      SwitchOnceIsTransition(dag, fanins, next, dag[v].if1, lits[i := One], Both(p1, w), phase);
      SwitchOnceIsTransition(dag, fanins, next, dag[v].if0, lits[i := Zero], Both(p1, 1.0 - w), phase);
      MixShares(p1, w, Transition(dag, fanins, next, dag[v].if1, lits[i := One], phase),
                Transition(dag, fanins, next, dag[v].if0, lits[i := Zero], phase));
    }
  }

  // ----- the transition probability is a true one -----

  ghost predicate StationaryInput(f: Fanin) {
    f.staticProb == Mix(f.staticProb, 1.0 - f.prob1to0, f.prob0to1)
  }

  /** The chance that an input is 1 does not change from one cycle to the next. */
  ghost predicate Stationary(fanins: seq<Fanin>) {
    forall i :: 0 <= i < |fanins| ==> StationaryInput(fanins[i])
  }

  lemma {:induction false} ProbIgnores(dag: Dag, ws: seq<real>, k: nat, x: real, v: nat, phase: bool)
    requires v < |dag| && WellFormed(dag, |ws|) && Ordered(dag) && k < |ws| && Above(dag, v, k + 1)
    ensures Prob(dag, ws[k := x], v, phase) == Prob(dag, ws, v, phase)
    decreases v
  {
    if dag[v].Test? {
      ProbIgnores(dag, ws, k, x, dag[v].if1, phase);
      ProbIgnores(dag, ws, k, x, dag[v].if0, phase);
    }
  }

  lemma {:induction false} MixesCommute(w: real, t: real, a: real, b: real, c: real, d: real)
    ensures Mix(w, Mix(t, a, b), Mix(t, c, d)) == Mix(t, Mix(w, a, c), Mix(w, b, d))
  {
  }

  lemma {:induction false} MixOfWeights(t: real, x: real, y: real, a: real, b: real)
    ensures Mix(Mix(t, x, y), a, b) == Mix(t, Mix(x, a, b), Mix(y, a, b))
  {
  }

  /** In each input's probability, the probability of a diagram is affine. */
  lemma {:induction false} ProbIsAffine(dag: Dag, ws: seq<real>, k: nat, t: real, x: real, y: real, v: nat, phase: bool)
    requires v < |dag| && WellFormed(dag, |ws|) && Ordered(dag) && k < |ws|
    ensures Prob(dag, ws[k := Mix(t, x, y)], v, phase) ==
      Mix(t, Prob(dag, ws[k := x], v, phase), Prob(dag, ws[k := y], v, phase))
    decreases v
  {
    match dag[v] {
      case Test(i, if1, if0) =>
        if i == k {
          var a, b := Prob(dag, ws, if1, phase), Prob(dag, ws, if0, phase);
          ProbIgnores(dag, ws, k, x, if1, phase);
          ProbIgnores(dag, ws, k, x, if0, phase);
          ProbIgnores(dag, ws, k, y, if1, phase);
          ProbIgnores(dag, ws, k, y, if0, phase);
          ProbIgnores(dag, ws, k, Mix(t, x, y), if1, phase);
          ProbIgnores(dag, ws, k, Mix(t, x, y), if0, phase);
          MixOfWeights(t, x, y, a, b);
        } else {
          ProbIsAffine(dag, ws, k, t, x, y, if1, phase);
          ProbIsAffine(dag, ws, k, t, x, y, if0, phase);
          MixesCommute(ws[i], t, Prob(dag, ws[k := x], if1, phase), Prob(dag, ws[k := y], if1, phase),
                       Prob(dag, ws[k := x], if0, phase), Prob(dag, ws[k := y], if0, phase));
        }
      case _ => MixSame(t, Prob(dag, ws, v, phase));
    }
  }

  /** An input about which nothing is known may as well be split into its two histories. */
  lemma {:induction false} BecomesSplits(dag: Dag, fanins: seq<Fanin>, next: nat, lits: seq<Literal>, k: nat,
                                         phase: bool)
    requires next < |dag| && WellFormed(dag, |fanins|) && Ordered(dag) && |lits| == |fanins| && k < |lits|
      && lits[k] == Two
    requires Stationary(fanins)
    ensures Becomes(dag, fanins, next, lits, phase) ==
      Mix(fanins[k].staticProb, Becomes(dag, fanins, next, lits[k := One], phase),
          Becomes(dag, fanins, next, lits[k := Zero], phase))
  {
    var f, ws := fanins[k], Weights(fanins, lits);
    ProbIsAffine(dag, ws, k, f.staticProb, 1.0 - f.prob1to0, f.prob0to1, next, phase);
    assert StationaryInput(f);
    assert ws == ws[k := Mix(f.staticProb, 1.0 - f.prob1to0, f.prob0to1)];
    assert Weights(fanins, lits[k := One]) == ws[k := 1.0 - f.prob1to0];
    assert Weights(fanins, lits[k := Zero]) == ws[k := f.prob0to1];
  }

  lemma {:induction false} TransitionSplits(dag: Dag, fanins: seq<Fanin>, next: nat, v: nat, lits: seq<Literal>,
                                            k: nat, phase: bool)
    requires next < |dag| && v < |dag| && WellFormed(dag, |fanins|) && Ordered(dag)
    requires |lits| == |fanins| && k < |lits| && lits[k] == Two && Above(dag, v, k + 1) && Stationary(fanins)
    ensures Transition(dag, fanins, next, v, lits, phase) ==
      Mix(fanins[k].staticProb, Transition(dag, fanins, next, v, lits[k := One], phase),
          Transition(dag, fanins, next, v, lits[k := Zero], phase))
    decreases v
  {
    var t := fanins[k].staticProb;
    match dag[v] {
      case Test(i, if1, if0) =>
        TransitionSplits(dag, fanins, next, if1, lits[i := One], k, phase);
        TransitionSplits(dag, fanins, next, if0, lits[i := Zero], k, phase);
        assert lits[i := One][k := One] == lits[k := One][i := One]
          && lits[i := One][k := Zero] == lits[k := Zero][i := One];
        assert lits[i := Zero][k := One] == lits[k := One][i := Zero]
          && lits[i := Zero][k := Zero] == lits[k := Zero][i := Zero];
        MixesCommute(fanins[i].staticProb, t,
                     Transition(dag, fanins, next, if1, lits[k := One][i := One], phase),
                     Transition(dag, fanins, next, if1, lits[k := Zero][i := One], phase),
                     Transition(dag, fanins, next, if0, lits[k := One][i := Zero], phase),
                     Transition(dag, fanins, next, if0, lits[k := Zero][i := Zero], phase));
      case leaf =>
        BecomesSplits(dag, fanins, next, lits, k, phase);
        MixSame(t, 0.0);
    }
  }

  /** What is known once the inputs in a have been looked at. */
  function Seen(a: seq<bool>, n: nat): (lits: seq<Literal>)
    requires |a| <= n
    ensures |lits| == n
    ensures forall k :: 0 <= k < n ==> lits[k] == if k < |a| then (if a[k] then One else Zero) else Two
  {
    seq(n, k requires 0 <= k < n => if k < |a| then (if a[k] then One else Zero) else Two)
  }

  function StaticProbs(fanins: seq<Fanin>): (ws: seq<real>)
    ensures |ws| == |fanins| && forall k :: 0 <= k < |ws| ==> ws[k] == fanins[k].staticProb
  {
    seq(|fanins|, k requires 0 <= k < |fanins| => fanins[k].staticProb)
  }

  /** How likely each input is 1 next, when the inputs are a now. */
  ghost function NextProbs(fanins: seq<Fanin>, a: seq<bool>): (ws: seq<real>)
    requires |a| == |fanins|
    ensures |ws| == |fanins|
  {
    seq(|fanins|, k requires 0 <= k < |fanins| => if a[k] then 1.0 - fanins[k].prob1to0 else fanins[k].prob0to1)
  }

  /** For inputs a now: is v at the opposite value, and how likely will `next` take the value `phase`. */
  ghost function SwitchFrom(dag: Dag, fanins: seq<Fanin>, next: nat, v: nat, phase: bool): seq<bool> -> real
    requires next < |dag| && v < |dag| && WellFormed(dag, |fanins|)
  {
    a => if |a| != |fanins| || Value(dag, v, a) == phase then 0.0
         else Expected(NextProbs(fanins, a), Indicator(dag, |fanins|, next, phase), [])
  }

  lemma {:induction false} SwitchFromFollows(dag: Dag, fanins: seq<Fanin>, next: nat, v: nat, phase: bool, a: seq<bool>)
    requires next < |dag| && v < |dag| && WellFormed(dag, |fanins|) && |a| <= |fanins|
    requires dag[v].Test? && dag[v].index < |a|
    ensures var c := if a[dag[v].index] then dag[v].if1 else dag[v].if0;
      Expected(StaticProbs(fanins), SwitchFrom(dag, fanins, next, v, phase), a) ==
      Expected(StaticProbs(fanins), SwitchFrom(dag, fanins, next, c, phase), a)
    decreases |fanins| - |a|
  {
    if |a| < |fanins| {
      SwitchFromFollows(dag, fanins, next, v, phase, a + [true]);
      SwitchFromFollows(dag, fanins, next, v, phase, a + [false]);
    }
  }

  lemma {:induction false} SeenOneMore(a: seq<bool>, n: nat, b: bool)
    requires |a| < n
    ensures Seen(a + [b], n) == Seen(a, n)[|a| := if b then One else Zero]
  {
  }

  /**
   * The transition probability is the expectation, over all inputs now and all inputs next, that v is at
   * the opposite value now and `next` at the given value next.
   */
  lemma {:induction false} TransitionIsExpected(dag: Dag, fanins: seq<Fanin>, next: nat, v: nat, phase: bool,
                                                a: seq<bool>)
    requires next < |dag| && v < |dag| && WellFormed(dag, |fanins|) && Ordered(dag) && Stationary(fanins)
    requires |a| <= |fanins| && Above(dag, v, |a|)
    ensures Transition(dag, fanins, next, v, Seen(a, |fanins|), phase) ==
      Expected(StaticProbs(fanins), SwitchFrom(dag, fanins, next, v, phase), a)
    decreases |fanins| - |a|
  {
    var n, lits := |fanins|, Seen(a, |fanins|);
    if |a| == n {
      assert Weights(fanins, lits) == NextProbs(fanins, a);
      ProbIsExpected(dag, Weights(fanins, lits), next, phase, []);
    } else {
      SeenOneMore(a, n, true);
      SeenOneMore(a, n, false);
      if dag[v].Test? && dag[v].index == |a| {
        TransitionIsExpected(dag, fanins, next, dag[v].if1, phase, a + [true]);
        TransitionIsExpected(dag, fanins, next, dag[v].if0, phase, a + [false]);
        SwitchFromFollows(dag, fanins, next, v, phase, a + [true]);
        SwitchFromFollows(dag, fanins, next, v, phase, a + [false]);
      } else {
        TransitionIsExpected(dag, fanins, next, v, phase, a + [true]);
        TransitionIsExpected(dag, fanins, next, v, phase, a + [false]);
        TransitionSplits(dag, fanins, next, v, lits, |a|, phase);
      }
    }
  }

  /** The diagram of a buffer, and an input that is 1 half of the time and changes half of the time. */
  function BufferDag(): (dag: Dag)
    ensures WellFormed(dag, 1)
  {
    [Const0, Const1, Test(0, 1, 0)]
  }

  function HalfInput(): seq<Fanin> {
    [Fanin(0.5, 0.5, 0.5, 0.5)]
  }

  lemma {:induction false} BufferIsOrdered()
    ensures Ordered(BufferDag())
  {
    var dag := BufferDag();
    forall v | 0 <= v < |dag| && dag[v].Test?
      ensures Above(dag, dag[v].if1, dag[v].index + 1) && Above(dag, dag[v].if0, dag[v].index + 1)
    {
      assert v == 2;
    }
  }

  lemma {:induction false} OneGoodInput(fanins: seq<Fanin>, f: Fanin)
    requires fanins == [f] && StationaryInput(f)
    requires IsProbability(f.staticProb) && IsProbability(f.prob0to1) && IsProbability(f.prob1to0)
    ensures GoodFanins(fanins) && Stationary(fanins)
  {
  }

  lemma {:induction false} HalfInputIsGood()
    ensures GoodFanins(HalfInput()) && Stationary(HalfInput())
  {
    var f := Fanin(0.5, 0.5, 0.5, 0.5);
    MixSame(f.staticProb, 0.5);
    OneGoodInput(HalfInput(), f);
  }

  lemma {:induction false} BufferBecomes()
    ensures Becomes(BufferDag(), HalfInput(), 2, [One], false) == 0.5
  {
    var ws := Weights(HalfInput(), [One]);
    assert ws[0] == 0.5;
    assert Prob(BufferDag(), ws, 1, false) == 0.0 && Prob(BufferDag(), ws, 0, false) == 1.0;
  }

  /** What the recursions say of the two leaves, each reached with probability one half. */
  lemma {:induction false} BufferLeaves()
    ensures Switch(BufferDag(), HalfInput(), 2, 1, [One], 0.5, false) == 0.125
    ensures Switch(BufferDag(), HalfInput(), 2, 0, [Zero], 0.5, false) == 0.0
    ensures Transition(BufferDag(), HalfInput(), 2, 1, [One], false) == 0.5
    ensures Transition(BufferDag(), HalfInput(), 2, 0, [Zero], false) == 0.0
    ensures !NothingLost(BufferDag(), HalfInput(), 2, 1, [One], 0.5, false)
  {
    BufferBecomes();
  }

  lemma {:induction false} BufferNumbers()
    ensures !NothingLost(BufferDag(), HalfInput(), 2, 2, [Two], 1.0, false)
    ensures Switch(BufferDag(), HalfInput(), 2, 2, [Two], 1.0, false) == 0.125
    ensures Transition(BufferDag(), HalfInput(), 2, 2, [Two], false) == 0.25
  {
    BufferLeaves();
    assert [Two][0 := One] == [One] && [Two][0 := Zero] == [Zero];
    assert Both(1.0, 0.5) == 0.5 && 1.0 - 0.5 == 0.5;
  }

  /** The recursion makes the buffer switch to 0 with probability 1/8 where the true chance is 1/4. */
  lemma {:induction false} HalfInputLosesWeight()
    ensures Ordered(BufferDag()) && GoodFanins(HalfInput()) && Stationary(HalfInput())
    ensures !NothingLost(BufferDag(), HalfInput(), 2, 2, [Two], 1.0, false)
    ensures Switch(BufferDag(), HalfInput(), 2, 2, [Two], 1.0, false) == 0.125
    ensures Transition(BufferDag(), HalfInput(), 2, 2, [Two], false) == 0.25
  {
    BufferNumbers();
    BufferIsOrdered();
    HalfInputIsGood();
  }
}
