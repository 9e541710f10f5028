/** Finding the latches that lie on a cycle, by marking with one integer flag per pass. */
module LatchCycles {
  import opened Graphs

  type Graph = g: seq<seq<nat>> | forall x, i :: 0 <= x < |g| && 0 <= i < |g[x]| ==> g[x][i] < |g|
    witness []

  ghost function FaninEdges(g: Graph): Edges {
    (x: nat, y: nat) => x < |g| && y in g[x]
  }

  /** Every fanin of x is marked, and none of them is the target. */
  ghost predicate Explored(g: Graph, flags: seq<int>, flag: int, target: nat, x: nat)
    requires |flags| == |g| && x < |g|
  {
    forall i :: 0 <= i < |g[x]| ==> flags[g[x][i]] == flag && g[x][i] != target
  }

  /** From a set of explored nodes no path leads to the target. */
  lemma {:induction false} ExploredIsClosed(g: Graph, flags: seq<int>, flag: int, target: nat, p: seq<nat>,
                                            k: nat)
    requires |flags| == |g| && forall x :: 0 <= x < |g| && flags[x] == flag ==> Explored(g, flags, flag, target, x)
    requires p != [] && IsPath(FaninEdges(g), p, p[0], p[|p| - 1]) && p[0] < |g| && flags[p[0]] == flag && k < |p|
    ensures p[k] < |g| && flags[p[k]] == flag && (k > 0 ==> p[k] != target)
  {
    if k > 0 {
      ExploredIsClosed(g, flags, flag, target, p, k - 1);
      assert StepAt(FaninEdges(g), p, k - 1);
      var i :| 0 <= i < |g[p[k - 1]]| && g[p[k - 1]][i] == p[k];
    }
  }

  /** The latches that reach themselves, in the order of the list. */
  ghost function OnCycles(g: Graph, latches: seq<nat>): seq<nat> {
    if latches == [] then []
    else
      var rest, latch := OnCycles(g, latches[..|latches| - 1]), latches[|latches| - 1];
      if ReachesOn(FaninEdges(g), latch, latch) then rest + [latch] else rest
  }

  lemma {:induction false} OnCyclesExact(g: Graph, latches: seq<nat>, x: nat)
    ensures x in OnCycles(g, latches) <==> x in latches && ReachesOn(FaninEdges(g), x, x)
    ensures multiset(OnCycles(g, latches))[x] ==
      if ReachesOn(FaninEdges(g), x, x) then multiset(latches)[x] else 0
  {
    if latches != [] {
      OnCyclesExact(g, latches[..|latches| - 1], x);
      assert latches == latches[..|latches| - 1] + [latches[|latches| - 1]];
    }
  }

  lemma {:induction false} NotOnCycle(g: Graph, flags: seq<int>, flag: int, latch: nat)
    requires |flags| == |g| && latch < |g| && flags[latch] == flag
    requires forall x :: 0 <= x < |g| && flags[x] == flag ==> Explored(g, flags, flag, latch, x)
    ensures !ReachesOn(FaninEdges(g), latch, latch)
  {
    if ReachesOn(FaninEdges(g), latch, latch) {
      var p: seq<nat> :| |p| >= 2 && IsPath(FaninEdges(g), p, latch, latch);
      ExploredIsClosed(g, flags, flag, latch, p, |p| - 1);
      assert false;
    }
  }

  class CycleFinder {
    const g: Graph
    const flags: array<int>

    ghost predicate Valid()
      reads this
    {
      flags.Length == |g|
    }

    constructor (g: Graph)
      ensures this.g == g && Valid() && fresh(flags)
    {
      this.g := g;
      flags := new int[|g|];
    }

    ghost function Unmarked(flag: int): set<nat>
      requires Valid()
      reads this, flags
    {
      set x: nat | x < |g| && flags[x] != flag
    }

    /** Whether the target is found over one or more fanin edges from start, not going through marked nodes. */
    method InCycle(target: nat, start: nat, flag: int) returns (found: bool)
      requires Valid() && start < |g|
      modifies flags
      ensures forall x :: 0 <= x < |g| && flags[x] != old(flags[x]) ==> flags[x] == flag
      ensures found ==> ReachesOn(FaninEdges(g), start, target)
      ensures !found ==> flags[start] == flag
      ensures !found ==> forall x :: 0 <= x < |g| && flags[x] == flag && old(flags[x]) != flag ==>
        Explored(g, flags[..], flag, target, x)
      decreases Unmarked(flag)
    {
      if flags[start] == flag {
        return false;
      }
      ghost var unmarked := Unmarked(flag);
      flags[start] := flag;
      assert start in unmarked && start !in Unmarked(flag);
      var fanins := g[start];
      var i := 0;
      while i < |fanins|
        invariant 0 <= i <= |fanins|
        invariant forall x :: 0 <= x < |g| && flags[x] != old(flags[x]) ==> flags[x] == flag
        invariant flags[start] == flag
        invariant forall j :: 0 <= j < i ==> flags[fanins[j]] == flag && fanins[j] != target
        invariant forall x :: 0 <= x < |g| && x != start && flags[x] == flag && old(flags[x]) != flag ==>
          Explored(g, flags[..], flag, target, x)
        invariant Unmarked(flag) < unmarked
      {
        if fanins[i] == target {
          ReachesSelf(FaninEdges(g), target);
          ReachesStep(FaninEdges(g), start, fanins[i], target);
          return true;
        }
        ghost var before := flags[..];
        ghost var unmarkedBefore := Unmarked(flag);
        var inner := InCycle(target, fanins[i], flag);
        if inner {
          OneIsSome(FaninEdges(g), fanins[i], target);
          ReachesStep(FaninEdges(g), start, fanins[i], target);
          return true;
        }
        assert Unmarked(flag) <= unmarkedBefore;
        forall x | 0 <= x < |g| && x != start && flags[x] == flag && old(flags[x]) != flag
          ensures Explored(g, flags[..], flag, target, x)
        {
          if before[x] == flag {
            assert Explored(g, before, flag, target, x);
          }
        }
        i := i + 1;
      }
      assert Explored(g, flags[..], flag, target, start);
      found := false;
    }

    /** Exactly the latches on cycles, although marks are never reset between the passes. */
    method LatchesInCycles(latches: seq<nat>) returns (found: seq<nat>)
      requires Valid() && forall i :: 0 <= i < |latches| ==> latches[i] < |g|
      modifies flags
      ensures found == OnCycles(g, latches)
    {
      found := [];
      for x := 0 to |g|
        invariant forall y :: 0 <= y < x ==> flags[y] == -1
      {
        flags[x] := -1;
      }
      var passNum := 0;
      for i := 0 to |latches|
        invariant passNum == i
        invariant forall y :: 0 <= y < |g| ==> flags[y] < passNum
        invariant found == OnCycles(g, latches[..i])
      {
        var latch := latches[i];
        ghost var before := flags[..];
        var onCycle := InCycle(latch, latch, passNum);
        if onCycle {
          found := found + [latch];
        } else {
          NotOnCycle(g, flags[..], passNum, latch);
        }
        assert latches[..i + 1][..i] == latches[..i];
        forall y | 0 <= y < |g|
          ensures flags[y] < passNum + 1
        {
          assert before[y] < passNum;
        }
        passNum := passNum + 1;
      }
      assert latches[..|latches|] == latches;
    }
  }
}
