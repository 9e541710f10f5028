/** The depth-first traversal that prints a netlist. */
module BlifTraversal {
  import opened Wrappers
  import opened Graphs

  /** A net is the list of nodes its fanout pins belong to; pins and their nodes may be missing. */
  type Fanouts = seq<Option<nat>>

  /** The output pins of a node; a pin may have no net. */
  type Pins = seq<Option<Fanouts>>

  /** Pin i of node x fans out to node y over fanout j. */
  ghost predicate FansOut(nodes: seq<Pins>, x: nat, i: nat, j: nat, y: nat) {
    && x < |nodes| && i < |nodes[x]| && nodes[x][i].Some?
    && j < |nodes[x][i].value| && nodes[x][i].value[j] == Some(y)
  }

  ghost predicate InRange(nodes: seq<Pins>) {
    forall x: nat, i: nat, j: nat, y: nat :: FansOut(nodes, x, i, j, y) ==> y < |nodes|
  }

  ghost predicate Edge(nodes: seq<Pins>, x: nat, y: nat) {
    exists i: nat, j: nat :: FansOut(nodes, x, i, j, y)
  }

  ghost function FanoutEdges(nodes: seq<Pins>): Edges {
    (x: nat, y: nat) => Edge(nodes, x, y)
  }

  ghost predicate NoDuplicates(s: seq<nat>) {
    forall i, j :: 0 <= i < j < |s| ==> s[i] != s[j]
  }

  lemma {:induction false} NoDuplicatesAppend(a: seq<nat>, b: seq<nat>)
    requires NoDuplicates(a) && NoDuplicates(b) && forall x :: x in a ==> x !in b
    ensures NoDuplicates(a + b)
  {
    forall i, j | 0 <= i < j < |a + b|
      ensures (a + b)[i] != (a + b)[j]
    {
      if i < |a| <= j {
        assert a[i] in a && b[j - |a|] in b;
      }
    }
  }

  /** The traversal roots: the three constant nodes and the first k top inputs that exist. */
  function Roots(gnd: nat, vcc: nat, pad: nat, topInputs: seq<Option<nat>>, k: nat): set<nat>
    requires k <= |topInputs|
  {
    if k == 0 then {gnd, vcc, pad}
    else Roots(gnd, vcc, pad, topInputs, k - 1) + (if topInputs[k - 1].Some? then {topInputs[k - 1].value} else {})
  }

  ghost predicate FromRoot(nodes: seq<Pins>, roots: set<nat>, x: nat) {
    exists r :: r in roots && Reaches(FanoutEdges(nodes), r, x)
  }

  lemma {:induction false} RootsExact(gnd: nat, vcc: nat, pad: nat, topInputs: seq<Option<nat>>, k: nat, r: nat)
    requires k <= |topInputs|
    ensures r in Roots(gnd, vcc, pad, topInputs, k) <==>
      r == gnd || r == vcc || r == pad || Some(r) in topInputs[..k]
  {
    if k > 0 {
      RootsExact(gnd, vcc, pad, topInputs, k - 1, r);
      assert topInputs[..k] == topInputs[..k - 1] + [topInputs[k - 1]];
    }
  }

  /** x is reached from a constant node or a top input. */
  ghost predicate FromTop(nodes: seq<Pins>, gnd: nat, vcc: nat, pad: nat, topInputs: seq<Option<nat>>, x: nat) {
    || Reaches(FanoutEdges(nodes), gnd, x) || Reaches(FanoutEdges(nodes), vcc, x)
    || Reaches(FanoutEdges(nodes), pad, x)
    || exists i :: 0 <= i < |topInputs| && topInputs[i].Some? && Reaches(FanoutEdges(nodes), topInputs[i].value, x)
  }

  lemma {:induction false} RootsAreTop(nodes: seq<Pins>, gnd: nat, vcc: nat, pad: nat, topInputs: seq<Option<nat>>,
                                       x: nat)
    ensures FromRoot(nodes, Roots(gnd, vcc, pad, topInputs, |topInputs|), x)
      <==> FromTop(nodes, gnd, vcc, pad, topInputs, x)
  {
    var roots := Roots(gnd, vcc, pad, topInputs, |topInputs|);
    assert topInputs[..|topInputs|] == topInputs;
    if FromRoot(nodes, roots, x) {
      var r :| r in roots && Reaches(FanoutEdges(nodes), r, x);
      RootsExact(gnd, vcc, pad, topInputs, |topInputs|, r);
    }
    if FromTop(nodes, gnd, vcc, pad, topInputs, x) {
      var r := if Reaches(FanoutEdges(nodes), gnd, x) then gnd else if Reaches(FanoutEdges(nodes), vcc, x) then vcc
        else if Reaches(FanoutEdges(nodes), pad, x) then pad
        else
          var i :| 0 <= i < |topInputs| && topInputs[i].Some?
            && Reaches(FanoutEdges(nodes), topInputs[i].value, x);
          topInputs[i].value;
      RootsExact(gnd, vcc, pad, topInputs, |topInputs|, r);
      assert r in roots;
    }
  }

  class Writer {
    const nodes: seq<Pins>
    const visited: array<nat>  // traverse_visited of each node
    var printed: seq<nat>      // the nodes written to the file so far

    ghost predicate Valid()
      reads this
    {
      InRange(nodes) && visited.Length == |nodes|
    }

    constructor (nodes: seq<Pins>)
      requires InRange(nodes)
      ensures this.nodes == nodes && Valid() && fresh(visited) && printed == []
    {
      this.nodes := nodes;
      visited := new nat[|nodes|];
      printed := [];
    }

    ghost function Unmarked(mark: nat): set<nat>
      requires Valid()
      reads this, visited
    {
      set x: nat | x < |nodes| && visited[x] != mark
    }

    ghost predicate AllFanoutsMarked(x: nat, mark: nat)
      requires Valid()
      reads this, visited
    {
      forall i: nat, j: nat, y: nat {:trigger FansOut(nodes, x, i, j, y)} :: FansOut(nodes, x, i, j, y) ==>
        y < |nodes| && visited[y] == mark
    }

    /** The newly marked nodes since a state with marks `before`, and what has been printed since. */
    ghost predicate Printed(before: seq<nat>, newly: seq<nat>, mark: nat)
      requires Valid() && |before| == |nodes|
      reads this, visited
    {
      && NoDuplicates(newly)
      && (forall x :: 0 <= x < |nodes| && visited[x] != before[x] ==> visited[x] == mark)
      && (forall x: nat :: x in newly <==> x < |nodes| && visited[x] == mark && before[x] != mark)
    }

    method OutputNode(node: nat)
      modifies this`printed
      ensures printed == old(printed) + [node]
    {
      printed := printed + [node];
    }

    /** Prints every unmarked node reached from here, each once, and marks it. */
    method DepthTraverse(node: nat, mark: nat) returns (ghost newly: seq<nat>)
      requires Valid() && node < |nodes|
      modifies visited, this`printed
      ensures printed == old(printed) + newly && Printed(old(visited[..]), newly, mark)
      ensures visited[node] == mark && (old(visited[node]) != mark ==> newly != [] && newly[0] == node)
      ensures forall x :: x in newly ==> AllFanoutsMarked(x, mark) && Reaches(FanoutEdges(nodes), node, x)
      decreases Unmarked(mark)
    {
      newly := [];
      if visited[node] == mark {
        return;
      }
      ghost var unmarked, before := Unmarked(mark), visited[..];
      OutputNode(node);
      visited[node] := mark;
      newly := [node];
      ReachesSelf(FanoutEdges(nodes), node);
      assert node in unmarked && node !in Unmarked(mark);
      var i := 0;
      while i < |nodes[node]|
        invariant 0 <= i <= |nodes[node]|
        invariant printed == old(printed) + newly && Printed(before, newly, mark)
        invariant visited[node] == mark && newly != [] && newly[0] == node
        invariant forall x :: x in newly ==>
          (x == node || AllFanoutsMarked(x, mark)) && Reaches(FanoutEdges(nodes), node, x)
        invariant forall i': nat, j: nat, y: nat :: i' < i && FansOut(nodes, node, i', j, y) ==>
          y < |nodes| && visited[y] == mark
        invariant Unmarked(mark) < unmarked
      {
        if nodes[node][i].Some? {
          newly := TraverseNet(node, i, mark, before, newly, unmarked, old(printed));
        }
        i := i + 1;
      }
    }

    /** Follows every fanout pin of one net of node. */
    method TraverseNet(node: nat, i: nat, mark: nat, ghost before: seq<nat>, ghost newly0: seq<nat>,
                       ghost unmarked: set<nat>, ghost printed0: seq<nat>)
      returns (ghost newly: seq<nat>)
      requires Valid() && node < |nodes| && i < |nodes[node]| && nodes[node][i].Some? && |before| == |nodes|
      requires printed == printed0 + newly0 && Printed(before, newly0, mark)
      requires visited[node] == mark && newly0 != [] && newly0[0] == node
      requires forall x :: x in newly0 ==> x == node || AllFanoutsMarked(x, mark)
      requires forall x :: x in newly0 ==> Reaches(FanoutEdges(nodes), node, x)
      requires Unmarked(mark) < unmarked
      modifies visited, this`printed
      ensures printed == printed0 + newly && Printed(before, newly, mark)
      ensures visited[node] == mark && newly != [] && newly[0] == node
      ensures forall x :: x in newly ==> x == node || AllFanoutsMarked(x, mark)
      ensures forall x :: x in newly ==> Reaches(FanoutEdges(nodes), node, x)
      ensures forall y :: 0 <= y < |nodes| && old(visited[y]) == mark ==> visited[y] == mark
      ensures forall j: nat, y: nat :: FansOut(nodes, node, i, j, y) ==> y < |nodes| && visited[y] == mark
      ensures Unmarked(mark) < unmarked
      decreases unmarked, 0
    {
      newly := newly0;
      var net := nodes[node][i].value;
      var j := 0;
      while j < |net|
        invariant 0 <= j <= |net|
        invariant printed == printed0 + newly && Printed(before, newly, mark)
        invariant visited[node] == mark && newly != [] && newly[0] == node
        invariant forall x :: x in newly ==>
          (x == node || AllFanoutsMarked(x, mark)) && Reaches(FanoutEdges(nodes), node, x)
        invariant forall y :: 0 <= y < |nodes| && old(visited[y]) == mark ==> visited[y] == mark
        invariant forall j': nat, y: nat :: j' < j && FansOut(nodes, node, i, j', y) ==>
          y < |nodes| && visited[y] == mark
        invariant Unmarked(mark) < unmarked
      {
        if net[j].Some? {
          var next := net[j].value;
          assert FansOut(nodes, node, i, j, next);
          ghost var marks := visited[..];
          ghost var more := DepthTraverse(next, mark);
          assert Edge(nodes, node, next);
          forall x | x in more
            ensures Reaches(FanoutEdges(nodes), node, x)
          {
            ReachesStep(FanoutEdges(nodes), node, next, x);
          }
          NoDuplicatesAppend(newly, more);
          newly := newly + more;
        }
        j := j + 1;
      }
    }

    /** The state between two top-level traversals: what is printed is closed and comes from the roots so far. */
    ghost predicate Between(roots: set<nat>, before: seq<nat>, mark: nat)
      requires Valid() && |before| == |nodes|
      reads this, visited
    {
      && Printed(before, printed, mark)
      && (forall x :: x in printed ==> AllFanoutsMarked(x, mark) && FromRoot(nodes, roots, x))
      && (forall r :: r in roots ==> r < |nodes| && visited[r] == mark)
    }

    method TraverseRoot(root: nat, mark: nat, ghost roots: set<nat>, ghost before: seq<nat>)
      requires Valid() && root < |nodes| && |before| == |nodes| && Between(roots, before, mark)
      modifies visited, this`printed
      ensures Between(roots + {root}, before, mark)
    {
      ghost var was := printed;
      ghost var newly := DepthTraverse(root, mark);
      NoDuplicatesAppend(was, newly);
      forall x | x in printed
        ensures FromRoot(nodes, roots + {root}, x)
      {
        if x in was {
          var r :| r in roots && Reaches(FanoutEdges(nodes), r, x);
          assert r in roots + {root};
        } else {
          assert root in roots + {root} && Reaches(FanoutEdges(nodes), root, x);
        }
      }
    }

    method TraverseTopInputs(mark: nat, ghost gnd: nat, ghost vcc: nat, ghost pad: nat, topInputs: seq<Option<nat>>,
                             ghost before: seq<nat>)
      requires Valid() && |before| == |nodes|
      requires forall i :: 0 <= i < |topInputs| && topInputs[i].Some? ==> topInputs[i].value < |nodes|
      requires Between({} + {gnd} + {vcc} + {pad}, before, mark)
      modifies visited, this`printed
      ensures Between(Roots(gnd, vcc, pad, topInputs, |topInputs|), before, mark)
    {
      assert {} + {gnd} + {vcc} + {pad} == Roots(gnd, vcc, pad, topInputs, 0);
      var i := 0;
      while i < |topInputs|
        invariant 0 <= i <= |topInputs|
        invariant Between(Roots(gnd, vcc, pad, topInputs, i), before, mark)
      {
        ghost var roots := Roots(gnd, vcc, pad, topInputs, i);
        assert roots + {} == roots;
        if topInputs[i] != None {
          TraverseRoot(topInputs[i].value, mark, roots, before);
        }
        i := i + 1;
      }
    }

    lemma {:induction false} PathStaysMarked(p: seq<nat>, mark: nat, k: nat, before: seq<nat>)
      requires Valid() && |before| == |nodes| && p != [] && IsPath(FanoutEdges(nodes), p, p[0], p[|p| - 1]) && k < |p|
      requires forall x :: 0 <= x < |nodes| ==> before[x] != mark
      requires Printed(before, printed, mark) && forall x :: x in printed ==> AllFanoutsMarked(x, mark)
      requires p[0] < |nodes| && visited[p[0]] == mark
      ensures p[k] in printed
    {
      if k > 0 {
        PathStaysMarked(p, mark, k - 1, before);
        assert StepAt(FanoutEdges(nodes), p, k - 1);
        var i: nat, j: nat :| FansOut(nodes, p[k - 1], i, j, p[k]);
      }
    }

    lemma {:induction false} ReachedIsPrinted(roots: set<nat>, mark: nat, before: seq<nat>, x: nat)
      requires Valid() && |before| == |nodes| && Between(roots, before, mark)
      requires forall y :: 0 <= y < |nodes| ==> before[y] != mark
      requires FromRoot(nodes, roots, x)
      ensures x in printed
    {
      var r :| r in roots && Reaches(FanoutEdges(nodes), r, x);
      var p: seq<nat> :| IsPath(FanoutEdges(nodes), p, r, x);
      PathStaysMarked(p, mark, |p| - 1, before);
    }

    lemma {:induction false} BetweenIsComplete(roots: set<nat>, mark: nat, before: seq<nat>)
      requires Valid() && |before| == |nodes| && Between(roots, before, mark)
      requires forall x :: 0 <= x < |nodes| ==> before[x] != mark
      ensures NoDuplicates(printed)
      ensures forall x :: x in printed <==> FromRoot(nodes, roots, x)
    {
      forall x | FromRoot(nodes, roots, x)
        ensures x in printed
      {
        ReachedIsPrinted(roots, mark, before, x);
      }
    }

    /**
     * Prints the netlist from the constant, pad and top input nodes, some of which may be missing:
     * every node reached over fanouts is printed exactly once, and no other.
     */
    method OutputBlif(mark: nat, gnd: nat, vcc: nat, pad: nat, topInputs: seq<Option<nat>>)
      requires Valid() && printed == []
      requires gnd < |nodes| && vcc < |nodes| && pad < |nodes|
      requires forall i :: 0 <= i < |topInputs| && topInputs[i].Some? ==> topInputs[i].value < |nodes|
      requires forall x :: 0 <= x < |nodes| ==> visited[x] != mark
      modifies visited, this`printed
      ensures NoDuplicates(printed)
      ensures forall x :: x in printed <==>
        || Reaches(FanoutEdges(nodes), gnd, x) || Reaches(FanoutEdges(nodes), vcc, x)
        || Reaches(FanoutEdges(nodes), pad, x)
        || exists i :: 0 <= i < |topInputs| && topInputs[i].Some?
                       && Reaches(FanoutEdges(nodes), topInputs[i].value, x)
    {
      ghost var before := visited[..];
      TraverseRoot(gnd, mark, {}, before);
      TraverseRoot(vcc, mark, {} + {gnd}, before);
      TraverseRoot(pad, mark, {} + {gnd} + {vcc}, before);
      TraverseTopInputs(mark, gnd, vcc, pad, topInputs, before);
      BetweenIsComplete(Roots(gnd, vcc, pad, topInputs, |topInputs|), mark, before);
      forall x: nat
        ensures x in printed <==> FromTop(nodes, gnd, vcc, pad, topInputs, x)
      {
        RootsAreTop(nodes, gnd, vcc, pad, topInputs, x);
      }
    }
  }
}
