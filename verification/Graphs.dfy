/** Paths and reachability in a graph given by its edges. */
module Graphs {

  type Edges = (nat, nat) -> bool

  ghost predicate StepAt(edges: Edges, p: seq<nat>, i: nat)
    requires i + 1 < |p|
  {
    edges(p[i], p[i + 1])
  }

  ghost predicate IsPath(edges: Edges, p: seq<nat>, x: nat, y: nat) {
    && p != [] && p[0] == x && p[|p| - 1] == y
    && forall i: nat {:trigger StepAt(edges, p, i)} :: i + 1 < |p| ==> StepAt(edges, p, i)
  }

  /** y is reached from x over zero or more edges. */
  ghost predicate Reaches(edges: Edges, x: nat, y: nat) {
    exists p: seq<nat> :: IsPath(edges, p, x, y)
  }

  /** y is reached from x over one or more edges. */
  ghost predicate ReachesOn(edges: Edges, x: nat, y: nat) {
    exists p: seq<nat> :: |p| >= 2 && IsPath(edges, p, x, y)
  }

  lemma {:induction false} ReachesSelf(edges: Edges, x: nat)
    ensures Reaches(edges, x, x)
  {
    assert IsPath(edges, [x], x, x);
  }

  lemma {:induction false} OneIsSome(edges: Edges, x: nat, y: nat)
    requires ReachesOn(edges, x, y)
    ensures Reaches(edges, x, y)
  {
  }

  lemma {:induction false} ReachesStep(edges: Edges, x: nat, y: nat, z: nat)
    requires edges(x, y) && Reaches(edges, y, z)
    ensures Reaches(edges, x, z) && ReachesOn(edges, x, z)
  {
    var q: seq<nat> :| IsPath(edges, q, y, z);
    var p := [x] + q;
    forall i: nat | i + 1 < |p|
      ensures StepAt(edges, p, i)
    {
      if i > 0 {
        assert StepAt(edges, q, i - 1);
      }
    }
    assert |p| >= 2 && IsPath(edges, p, x, z);
  }
}
