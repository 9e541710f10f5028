/** The estimator's own traversals: a memoised recursion, and one that edits copies of a packed cube. */
module SwitchEstimator {
  import opened Cube
  import opened Bdd
  import opened SwitchProbability

  // ----- direction probabilities of an input -----

  function P0To1(p1: real, ps: real): real {
    if p1 == 0.0 then 0.0 else if p1 == 1.0 then 1.0 else 0.5 * ps / (1.0 - p1)
  }

  /** The source tests p1 == 0 twice, so an input that is always 1 is divided by 1. */
  function P1To0(p1: real, ps: real): real {
    if p1 == 0.0 then 1.0 else 0.5 * ps / p1
  }

  /** An input cannot change more often than twice its ones, or twice its zeros. */
  predicate GoodActivity(f: Fanin) {
    IsProbability(f.staticProb) && 0.0 <= f.switchProb <= 2.0 * f.staticProb
      && f.switchProb <= 2.0 * (1.0 - f.staticProb)
  }

  lemma {:induction false} QuotientBound(x: real, y: real)
    requires 0.0 <= x <= y && 0.0 < y
    ensures IsProbability(x / y) && (x / y) * y == x
  {
  }

  lemma {:induction false} ShareBound(ps: real, d: nat)
    requires 0.0 <= ps && d >= 1
    ensures 0.0 <= ps / (d as real) <= ps
  {
    var r := d as real;
    assert (ps / r) * r == ps;
    if ps / r > ps {
      Product(ps / r, 1.0, r);
    }
  }

  function Direct(f: Fanin, d: nat): Fanin
    requires d >= 1
  {
    f.(prob0to1 := P0To1(f.staticProb, f.switchProb / d as real),
       prob1to0 := P1To0(f.staticProb, f.switchProb / d as real))
  }

  lemma {:induction false} FlowBalances(p: real, flow: real, down: real, up: real)
    requires down * p == flow && up * (1.0 - p) == flow
    ensures Mix(p, 1.0 - down, up) == p
  {
  }

  /**
   * The direction probabilities are probabilities, and leave the chance of a 1 as it was. Together the changes
   * they make are the activity, split over d.
   */
  lemma {:induction false} DirectIsStationary(f: Fanin, d: nat)
    requires d >= 1 && GoodActivity(f)
    ensures IsProbability(Direct(f, d).prob0to1) && IsProbability(Direct(f, d).prob1to0)
      && StationaryInput(Direct(f, d))
    ensures Direct(f, d).staticProb == f.staticProb && Direct(f, d).switchProb == f.switchProb
    ensures 0.0 < f.staticProb < 1.0 ==>
      f.staticProb * Direct(f, d).prob1to0 + (1.0 - f.staticProb) * Direct(f, d).prob0to1 == f.switchProb / d as real
    ensures f.staticProb == 0.0 ==> Direct(f, d).prob0to1 == 0.0 && Direct(f, d).prob1to0 == 1.0
    ensures f.staticProb == 1.0 ==> Direct(f, d).prob0to1 == 1.0 && Direct(f, d).prob1to0 == 0.0
  {
    var p, ps := f.staticProb, f.switchProb / d as real;
    ShareBound(f.switchProb, d);
    if 0.0 < p < 1.0 {
      QuotientBound(0.5 * ps, 1.0 - p);
      QuotientBound(0.5 * ps, p);
      FlowBalances(p, 0.5 * ps, P1To0(p, ps), P0To1(p, ps));
    }
  }

  // ----- counting paths -----

  function PathsTo(dag: Dag, v: nat, inputs: nat, value: bool): nat
    requires v < |dag| && WellFormed(dag, inputs)
    decreases v
  {
    match dag[v]
    case Test(_, if1, if0) => PathsTo(dag, if1, inputs, value) + PathsTo(dag, if0, inputs, value)
    case leaf => if IsLeafOf(leaf, value) then 1 else 0
  }

  /** Going down from v along the branches in p ends at the given value. */
  predicate Leads(dag: Dag, v: nat, inputs: nat, p: seq<bool>, value: bool)
    requires v < |dag| && WellFormed(dag, inputs)
    decreases |p|
  {
    if !dag[v].Test? then p == [] && IsLeafOf(dag[v], value)
    else p != [] && Leads(dag, if p[0] then dag[v].if1 else dag[v].if0, inputs, p[1..], value)
  }

  /** As many paths, with another branch in front of each. */
  lemma {:induction false} Prefixed(paths: set<seq<bool>>, b: bool) returns (longer: set<seq<bool>>)
    ensures |longer| == |paths| && forall p :: p in longer <==> p != [] && p[0] == b && p[1..] in paths
  {
    if paths == {} {
      longer := {};
    } else {
      var q :| q in paths;
      var others := Prefixed(paths - {q}, b);
      longer := others + {[b] + q};
      forall p | p != [] && p[0] == b && p[1..] in paths
        ensures p in longer
      {
        assert p == [b] + p[1..];
      }
    }
  }

  /** The count of the recursion is the number of ways down. */
  lemma {:induction false} PathsAreCounted(dag: Dag, v: nat, inputs: nat, value: bool) returns (paths: set<seq<bool>>)
    requires v < |dag| && WellFormed(dag, inputs)
    ensures |paths| == PathsTo(dag, v, inputs, value) && forall p :: p in paths <==> Leads(dag, v, inputs, p, value)
    decreases v
  {
    match dag[v] {
      case Test(_, if1, if0) =>
        var ones := PathsAreCounted(dag, if1, inputs, value);
        var zeros := PathsAreCounted(dag, if0, inputs, value);
        var left := Prefixed(ones, true);
        var right := Prefixed(zeros, false);
        assert left !! right;
        paths := left + right;
      case leaf =>
        paths := if IsLeafOf(leaf, value) then {[]} else {};
    }
  }

  /** The depth scaled down, but at least one. */
  function ScaledDepth(depth: nat): (d: nat)
    ensures d >= 1 && (d == 1 || 10 * d <= 4 * depth) && 4 * depth < 10 * (d + 1)
  {
    var d := depth * 4 / 10;
    if d < 1 then 1 else d
  }

  /** The three ways the source weighs its two branches. */
  function Combine(f: Fanin, l: Literal, thenProb: real, elseProb: real): (p: real)
    ensures p == Mix(Weight(f, l), thenProb, elseProb)
  {
    match l
    case Zero => f.prob0to1 * thenProb + (1.0 - f.prob0to1) * elseProb
    case One => (1.0 - f.prob1to0) * thenProb + f.prob1to0 * elseProb
    case _ => f.staticProb * thenProb + (1.0 - f.staticProb) * elseProb
  }

  /** The fanins after their direction probabilities have been set. */
  ghost predicate Directed(was: seq<Fanin>, now: seq<Fanin>, d: nat)
    requires d >= 1
  {
    |now| == |was| && forall k :: 0 <= k < |was| ==> now[k] == Direct(was[k], d)
  }

  lemma {:induction false} DirectedIsGood(was: seq<Fanin>, now: seq<Fanin>, d: nat)
    requires d >= 1 && Directed(was, now, d) && forall k :: 0 <= k < |was| ==> GoodActivity(was[k])
    ensures GoodFanins(now) && Stationary(now)
  {
    forall k | 0 <= k < |now|
      ensures IsProbability(now[k].prob0to1) && IsProbability(now[k].prob1to0) && StationaryInput(now[k])
      ensures IsProbability(now[k].staticProb)
    {
      DirectIsStationary(was[k], d);
    }
  }

  /** The chance, over inputs now and inputs next, that v goes from !phase to phase. */
  ghost function SwitchChance(dag: Dag, fanins: seq<Fanin>, v: nat, phase: bool): real
    requires v < |dag| && WellFormed(dag, |fanins|)
  {
    Expected(StaticProbs(fanins), SwitchFrom(dag, fanins, v, v, phase), [])
  }

  /**
   * Twice the depth times what the recursion gives: at most twice the depth times the chance of a switch, and
   * equal to it just when no path weight is lost. On an ordered graph that is the true chance.
   */
  ghost predicate Estimates(dag: Dag, fanins: seq<Fanin>, v: nat, phase: bool, d: nat, act: real)
    requires v < |dag| && WellFormed(dag, |fanins|)
  {
    var lits := Seen([], |fanins|);
    var most := 2.0 * d as real * Transition(dag, fanins, v, v, lits, phase);
    && act == 2.0 * Switch(dag, fanins, v, v, lits, 1.0, phase) * d as real
    && IsProbability(Transition(dag, fanins, v, v, lits, phase))
    && 0.0 <= act <= most <= 2.0 * d as real
    && (act == most <==> NothingLost(dag, fanins, v, v, lits, 1.0, phase))
    && (Ordered(dag) ==> most == 2.0 * d as real * SwitchChance(dag, fanins, v, phase))
  }

  lemma {:induction false} ScaleUp(s: real, c: real, d: real)
    requires 0.0 <= s <= c <= 1.0 && d >= 1.0
    ensures 0.0 <= 2.0 * s * d <= 2.0 * d * c <= 2.0 * d && (2.0 * s * d == 2.0 * d * c <==> s == c)
  {
    Product(d, s, c);
    Product(d, c, 1.0);
    Product(d, c - s, c);
    if s < c {
      Product(c - s, 1.0, d);
      assert d * (c - s) > 0.0;
    }
  }

  lemma {:induction false} ActivityBound(dag: Dag, fanins: seq<Fanin>, v: nat, phase: bool, s: real, d: nat)
    requires v < |dag| && WellFormed(dag, |fanins|) && d >= 1
    requires GoodFanins(fanins) && Stationary(fanins)
    requires s == Switch(dag, fanins, v, v, Seen([], |fanins|), 1.0, phase)
    ensures Estimates(dag, fanins, v, phase, d, 2.0 * s * d as real)
  {
    SwitchBounds(dag, fanins, v, v, Seen([], |fanins|), 1.0, phase);
    SwitchOnceIsTransition(dag, fanins, v, v, Seen([], |fanins|), 1.0, phase);
    TransitionIsProbability(dag, fanins, v, v, Seen([], |fanins|), phase);
    if Ordered(dag) {
      TransitionIsExpected(dag, fanins, v, v, phase, []);
    }
    ScaleUp(s, Transition(dag, fanins, v, v, Seen([], |fanins|), phase), d as real);
  }

  /** An input of static probability and activity one half is passed on as it is assumed there. */
  lemma {:induction false} HalfInputPassedOn(f: Fanin)
    requires f.staticProb == 0.5 == f.switchProb
    ensures GoodActivity(f) && Directed([f], HalfInput(), 1)
  {
    assert 0.5 / 1 as real == 0.5;
    assert Direct(f, 1) == HalfInput()[0];
  }

  lemma {:induction false} BufferPaths()
    ensures PathsTo(BufferDag(), 2, 1, true) == 1 == PathsTo(BufferDag(), 2, 1, false)
  {
    assert PathsTo(BufferDag(), 1, 1, true) == 1 && PathsTo(BufferDag(), 0, 1, true) == 0;
    assert PathsTo(BufferDag(), 1, 1, false) == 0 && PathsTo(BufferDag(), 0, 1, false) == 1;
  }

  lemma {:induction false} EstimatesSays(dag: Dag, fanins: seq<Fanin>, v: nat, phase: bool, act: real)
    requires v < |dag| && WellFormed(dag, |fanins|) && Ordered(dag)
    requires Estimates(dag, fanins, v, phase, 1, act)
    ensures act == 2.0 * Switch(dag, fanins, v, v, Seen([], |fanins|), 1.0, phase)
    ensures SwitchChance(dag, fanins, v, phase) == Transition(dag, fanins, v, v, Seen([], |fanins|), phase)
  {
  }

  /** A shallow buffer of such an input is given the activity 1/4, half of what is true of it. */
  lemma {:induction false} BufferLosesActivity(depth: nat, act: real)
    requires depth < 5
    requires Estimates(BufferDag(), HalfInput(), 2,
                       PathsTo(BufferDag(), 2, 1, true) > PathsTo(BufferDag(), 2, 1, false), ScaledDepth(depth), act)
    ensures act == 0.25 && 2.0 * SwitchChance(BufferDag(), HalfInput(), 2, false) == 0.5
  {
    BufferPaths();
    BufferIsOrdered();
    EstimatesSays(BufferDag(), HalfInput(), 2, false, act);
    BufferNumbers();
    assert Seen([], 1) == [Two];
  }

  class Estimator {
    const dag: Dag
    var fanins: seq<Fanin>
    var visited: map<nat, real>

    /** The memo table only ever holds what the plain recursion would compute. */
    ghost predicate Remembers(ws: seq<real>, phase: bool)
      reads this
    {
      WellFormed(dag, |ws|) && forall u :: u in visited ==> u < |dag| && visited[u] == Prob(dag, ws, u, phase)
    }

    method CalcCubeSwitchProbRecur(v: nat, cube: PackedCube, phase: bool) returns (prob: real)
      requires v < |dag| && cube.Valid() && cube.numLiterals == |fanins| && Bad !in cube.Value()
      requires Remembers(Weights(fanins, cube.Value()), phase)
      modifies this`visited
      ensures prob == Becomes(dag, fanins, v, cube.Value(), phase)
      ensures Remembers(Weights(fanins, cube.Value()), phase)
      ensures forall u :: u in old(visited) ==> u in visited
      decreases v
    {
      if dag[v].Const0? {
        return if phase then 0.0 else 1.0;
      } else if dag[v].Const1? {
        return if phase then 1.0 else 0.0;
      }
      if v in visited {
        return visited[v];
      }
      var i := dag[v].index;
      var fanin := fanins[i];
      var thenProb := CalcCubeSwitchProbRecur(dag[v].if1, cube, phase);
      var elseProb := CalcCubeSwitchProbRecur(dag[v].if0, cube, phase);
      var literal := cube.NodeGetLiteral(i);
      prob := Combine(fanin, literal, thenProb, elseProb);
      visited := visited[v := prob];
    }

    method CalcCubeSwitchProb(v: nat, cube: PackedCube, phase: bool) returns (prob: real)
      requires v < |dag| && cube.Valid() && cube.numLiterals == |fanins| && Bad !in cube.Value()
      requires WellFormed(dag, |fanins|)
      modifies this`visited
      ensures prob == Becomes(dag, fanins, v, cube.Value(), phase)
    {
      visited := map[];
      prob := CalcCubeSwitchProbRecur(v, cube, phase);
      visited := map[];
    }

    /** Where a path ends, its probability comes in twice. */
    method LeafProb(next: nat, v: nat, cube: PackedCube, p1: real, phase: bool) returns (prob: real)
      requires next < |dag| && v < |dag| && !dag[v].Test? && cube.Valid() && cube.numLiterals == |fanins|
        && Bad !in cube.Value()
      requires WellFormed(dag, |fanins|)
      modifies this`visited
      ensures prob == Switch(dag, fanins, next, v, cube.Value(), p1, phase)
    {
      if dag[v].Const0? && !phase {
        return 0.0;
      }
      if dag[v].Const1? && phase {
        return 0.0;
      }
      prob := CalcCubeSwitchProb(next, cube, phase);
      prob := prob * p1;
      prob := prob * p1;
    }

    /** A copy of the cube that also says what input i was. */
    method Restricted(cube: PackedCube, i: nat, l: Literal) returns (copy: PackedCube)
      requires cube.Valid() && i < cube.numLiterals && Bad !in cube.Value() && l != Bad
      ensures fresh(copy) && fresh(copy.words) && copy.Valid() && copy.numLiterals == cube.numLiterals
      ensures copy.Value() == cube.Value()[i := l] && Bad !in copy.Value()
    {
      copy := cube.Dup();
      copy.CopyLiteral(i, l);
    }

    /** The cube handed in is read only; each branch restricts a copy of its own. */
    method CalcSwitchProbRecur(next: nat, v: nat, cube: PackedCube, p1: real, phase: bool) returns (prob: real)
      requires next < |dag| && v < |dag| && cube.Valid() && cube.numLiterals == |fanins| > 0 && Bad !in cube.Value()
      requires WellFormed(dag, |fanins|)
      modifies this`visited
      ensures prob == Switch(dag, fanins, next, v, cube.Value(), p1, phase)
      decreases v
    {
      if !dag[v].Test? {
        prob := LeafProb(next, v, cube, p1, phase);
        return;
      }
      var i := dag[v].index;
      var fanin := fanins[i];

      var cube1 := Restricted(cube, i, One);
      var thenProb := CalcSwitchProbRecur(next, dag[v].if1, cube1, Both(p1, fanin.staticProb), phase);

      var cube0 := Restricted(cube, i, Zero);
      var elseProb := CalcSwitchProbRecur(next, dag[v].if0, cube0, Both(p1, 1.0 - fanin.staticProb), phase);

      prob := thenProb + elseProb;
    }

    method CountPaths(v: nat, ones: nat, zeros: nat) returns (ones': nat, zeros': nat)
      requires v < |dag| && WellFormed(dag, |fanins|)
      ensures ones' == ones + PathsTo(dag, v, |fanins|, true) && zeros' == zeros + PathsTo(dag, v, |fanins|, false)
      decreases v
    {
      match dag[v] {
        case Const0 => return ones, zeros + 1;
        case Const1 => return ones + 1, zeros;
        case Test(_, if1, if0) =>
          ones', zeros' := CountPaths(if1, ones, zeros);
          ones', zeros' := CountPaths(if0, ones', zeros');
      }
    }

    /** Sets the direction probabilities of all fanins. */
    method UpdateFanins(d: nat)
      requires d >= 1
      modifies this`fanins
      ensures Directed(old(fanins), fanins, d)
    {
      var i := 0;
      while i < |fanins|
        invariant 0 <= i <= |fanins| == |old(fanins)|
        invariant forall k :: 0 <= k < i ==> fanins[k] == Direct(old(fanins[k]), d)
        invariant forall k :: i <= k < |fanins| ==> fanins[k] == old(fanins[k])
      {
        var share := fanins[i].switchProb / d as real;
        fanins := fanins[i := fanins[i].(prob0to1 := P0To1(fanins[i].staticProb, share),
                                         prob1to0 := P1To0(fanins[i].staticProb, share))];
        i := i + 1;
      }
    }

    /** Twice the depth times the switching probability, towards the value more paths lead to. */
    method CalcSwitchAct(v: nat, depth: nat) returns (act: real)
      requires v < |dag| && WellFormed(dag, |fanins|) && depth > 0
      requires forall k :: 0 <= k < |fanins| ==> GoodActivity(fanins[k])
      modifies this
      ensures old(fanins) == [] ==> act == 0.5 && fanins == []
      ensures old(fanins) != [] ==> Directed(old(fanins), fanins, ScaledDepth(depth))
      ensures |fanins| == |old(fanins)|
      ensures old(fanins) != [] ==>
        Estimates(dag, fanins, v, PathsTo(dag, v, |fanins|, true) > PathsTo(dag, v, |fanins|, false),
                  ScaledDepth(depth), act)
    {
      var d := ScaledDepth(depth);
      if |fanins| < 1 {
        return 0.5;
      }
      var n1, n0 := CountPaths(v, 0, 0);
      UpdateFanins(d);
      DirectedIsGood(old(fanins), fanins, d);
      var cube := PackedCube.NewDc(|fanins|);
      assert cube.Value() == Seen([], |fanins|);
      var prob := CalcSwitchProbRecur(v, v, cube, 1.0, n1 > n0);
      ActivityBound(dag, fanins, v, n1 > n0, prob, d);
      act := 2.0 * prob * d as real;
    }
  }
}
