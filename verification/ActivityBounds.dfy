/** The probabilities the simulator records, and the assertions it makes about them. */
module ActivityBounds {
  import opened SimulatorRun

  const EPSILON: real := 0.00001

  /** The four assertions made for one object after n cycles. */
  ghost predicate AssertionsHold(ones: int, toggles: int, n: nat)
    requires n > 0
  {
    var staticProb, switchProb := ones as real / n as real, toggles as real / n as real;
    && 0.0 <= staticProb <= 1.0
    && 0.0 <= switchProb <= 1.0
    && switchProb - EPSILON <= 2.0 * (1.0 - staticProb)
    && switchProb - EPSILON <= 2.0 * staticProb
  }

  ghost predicate Bits(c: seq<int>) {
    forall t :: 0 <= t < |c| ==> c[t] == 0 || c[t] == 1
  }

  /** A signal cannot change more often than twice per 1 or twice per 0. */
  lemma {:induction false} ChangesBounded(c: seq<int>)
    requires Bits(c) && c != []
    ensures 0 <= Ones(c) <= |c| && 0 <= Changes(c) < |c|
    ensures Changes(c) <= 2 * Ones(c) - c[|c| - 1]
    ensures Changes(c) <= 2 * (|c| - Ones(c)) - (1 - c[|c| - 1])
  {
    if |c| > 1 {
      ChangesBounded(c[..|c| - 1]);
    }
  }

  /** Starts with a 1 and never has two zeros in a row. */
  ghost predicate Spiky(c: seq<int>) {
    && c != [] && c[0] == 1
    && forall t :: 0 < t < |c| ==> c[t - 1] == 1 || c[t] == 1
  }

  /** Counting from an initial 0 adds one change exactly when the first value is a 1. */
  lemma {:induction false} ChangesFromZero(c: seq<int>)
    requires Bits(c) && c != []
    ensures Changes([0] + c) == Changes(c) + c[0]
  {
    var n := |c| - 1;
    assert c == c[..n] + [c[n]];
    assert [0] + c == ([0] + c[..n]) + [c[n]];
    CountSnoc(c[..n], c[n]);
    CountSnoc([0] + c[..n], c[n]);
    if n > 0 {
      ChangesFromZero(c[..n]);
    }
  }

  /** An input's changes, counted from an initial 0, reach their bound exactly for the spiky signals. */
  lemma {:induction false} PiChangesBounded(c: seq<int>)
    requires Bits(c) && c != []
    ensures Changes([0] + c) <= 2 * (|c| - Ones(c)) + c[|c| - 1]
    ensures Changes([0] + c) == 2 * (|c| - Ones(c)) + c[|c| - 1] <==> Spiky(c)
    ensures Changes([0] + c) <= 2 * Ones(c) - c[|c| - 1] && Changes([0] + c) <= |c|
  {
    ChangesFromZero(c);
    if |c| > 1 {
      var front := c[..|c| - 1];
      PiChangesBounded(front);
      ChangesFromZero(front);
      assert Spiky(c) <==> Spiky(front) && (c[|c| - 2] == 1 || c[|c| - 1] == 1);
    }
  }

  lemma {:induction false} RatioAtMost(x: int, y: int, n: nat)
    requires n > 0
    ensures x <= y <==> x as real / n as real <= y as real / n as real
  {
    var r := n as real;
    assert (x as real / r) * r == x as real && (y as real / r) * r == y as real;
    if x as real / r <= y as real / r {
      assert (x as real / r) * r <= (y as real / r) * r;
    }
  }

  lemma {:induction false} InUnit(x: int, n: nat)
    requires n > 0 && 0 <= x <= n
    ensures 0.0 <= x as real / n as real <= 1.0
    ensures (x as real / n as real) * n as real == x as real
  {
    RatioAtMost(0, x, n);
    RatioAtMost(x, n, n);
  }

  lemma {:induction false} TwiceAtMost(x: int, y: int, n: nat)
    requires n > 0 && x <= 2 * y
    ensures x as real / n as real <= 2.0 * (y as real / n as real)
  {
    RatioAtMost(x, 2 * y, n);
    assert (2 * y) as real == 2.0 * y as real;
    assert (2.0 * y as real) / n as real == 2.0 * (y as real / n as real);
  }

  lemma {:induction false} Scale(x: real, y: real, r: real)
    requires r > 0.0
    ensures x <= y <==> x * r <= y * r
  {
  }

  lemma {:induction false} MarginScales(p: real, q: real, x: real, y: real, r: real)
    requires r > 0.0 && p * r == x && q * r == y
    ensures q - EPSILON <= 2.0 * (1.0 - p) <==> y - EPSILON * r <= 2.0 * (r - x)
  {
    Scale(q - EPSILON, 2.0 * (1.0 - p), r);
    assert (q - EPSILON) * r == y - EPSILON * r;
    assert (2.0 * (1.0 - p)) * r == 2.0 * (r - x);
  }

  lemma {:induction false} RatiosPass(ones: int, toggles: int, n: nat)
    requires n > 0 && 0 <= ones <= n && 0 <= toggles <= n
    requires toggles <= 2 * ones
    ensures AssertionsHold(ones, toggles, n) <==>
      (toggles as real - EPSILON * n as real <= 2.0 * (n as real - ones as real))
  {
    var p, q := ones as real / n as real, toggles as real / n as real;
    InUnit(ones, n);
    InUnit(toggles, n);
    TwiceAtMost(toggles, ones, n);
    MarginScales(p, q, ones as real, toggles as real, n as real);
  }

  /** The recorded probabilities of an evaluated object always pass. */
  lemma {:induction false} LogicAssertionsHold(c: seq<int>)
    requires Bits(c) && c != []
    ensures AssertionsHold(Ones(c), Changes(c), |c|)
  {
    ChangesBounded(c);
    RatiosPass(Ones(c), Changes(c), |c|);
  }

  /**
   * The assertions made for a primary input fail exactly when its values start and end with a 1 and
   * never have two zeros in a row, in fewer than 100000 cycles.
   */
  lemma {:induction false} PiAssertionsHold(c: seq<int>)
    requires Bits(c) && c != []
    ensures AssertionsHold(Ones(c), Changes([0] + c), |c|) <==> !(Spiky(c) && c[|c| - 1] == 1 && |c| < 100000)
  {
    PiChangesBounded(c);
    ChangesBounded(c);
    ChangesFromZero(c);
    RatiosPass(Ones(c), Changes([0] + c), |c|);
  }

  /** What is true of the counts of any signal over n cycles. */
  ghost predicate CountsBounded(ones: int, toggles: int, n: nat) {
    0 <= ones <= n && 0 <= toggles <= n && toggles <= 2 * ones && toggles <= 2 * (n - ones) + 1
  }

  /** Counts over all but the last of n cycles pass, even those of an input. */
  lemma {:induction false} DelayedAssertionsHold(ones: int, toggles: int, n: nat)
    requires n > 0 && CountsBounded(ones, toggles, n - 1)
    ensures AssertionsHold(ones, toggles, n)
  {
    RatiosPass(ones, toggles, n);
  }

  lemma {:induction false} SignalCountsBounded(c: seq<int>, isInput: bool)
    requires Bits(c)
    ensures CountsBounded(Ones(c), Changes(if isInput then [0] + c else c), |c|)
  {
    if c != [] {
      ChangesBounded(c);
      PiChangesBounded(c);
    }
  }

  /** One cycle of a 1 is enough to make them fail. */
  lemma {:induction false} SingleOneFails()
    ensures Bits([1]) && !AssertionsHold(Ones([1]), Changes([0] + [1]), 1)
  {
    PiAssertionsHold([1]);
    assert Spiky([1]);
  }
}
