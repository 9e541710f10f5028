/** Choosing which multipliers become hard blocks. */
module MixingOptimization {

  /** A multiplier waiting to be implemented; weight -1 marks one that has become a hard block. */
  class MultNode {
    const portSize0: nat
    const portSize1: nat
    var weight: int
    var hardened: bool

    constructor (portSize0: nat, portSize1: nat, weight: int)
      ensures this.portSize0 == portSize0 && this.portSize1 == portSize1 && this.weight == weight && !hardened
    {
      this.portSize0, this.portSize1, this.weight, hardened := portSize0, portSize1, weight, false;
    }
  }

  // ----- selections -----

  /** Total weight of the selected nodes. */
  function Total(ws: seq<int>, pick: seq<bool>): int
    requires |ws| == |pick|
  {
    if ws == [] then 0
    else Total(ws[..|ws| - 1], pick[..|ws| - 1]) + if pick[|ws| - 1] then ws[|ws| - 1] else 0
  }

  function Count(pick: seq<bool>): nat {
    if pick == [] then 0 else Count(pick[..|pick| - 1]) + if pick[|pick| - 1] then 1 else 0
  }

  ghost predicate Within(pick: seq<bool>, eligible: seq<bool>) {
    |pick| == |eligible| && forall i :: 0 <= i < |pick| && pick[i] ==> eligible[i]
  }

  lemma {:induction false} CountMonotone(pick: seq<bool>, eligible: seq<bool>)
    requires Within(pick, eligible)
    ensures Count(pick) <= Count(eligible)
  {
    if pick != [] {
      CountMonotone(pick[..|pick| - 1], eligible[..|pick| - 1]);
    }
  }

  lemma {:induction false} CountNone(pick: seq<bool>)
    requires forall i :: 0 <= i < |pick| ==> !pick[i]
    ensures Count(pick) == 0
  {
    if pick != [] {
      CountNone(pick[..|pick| - 1]);
    }
  }

  lemma {:induction false} CountSome(pick: seq<bool>, i: nat)
    requires i < |pick| && pick[i]
    ensures Count(pick) > 0
  {
    if i < |pick| - 1 {
      CountSome(pick[..|pick| - 1], i);
    }
  }

  lemma {:induction false} CountPick(pick: seq<bool>, i: nat)
    requires i < |pick| && !pick[i]
    ensures Count(pick[i := true]) == Count(pick) + 1
  {
    var n := |pick| - 1;
    if i < n {
      CountPick(pick[..n], i);
      assert pick[i := true][..n] == pick[..n][i := true];
    } else {
      assert pick[i := true][..n] == pick[..n];
    }
  }

  /** No node left out is heavier than tau, and no chosen node is lighter. */
  ghost predicate Threshold(ws: seq<int>, eligible: seq<bool>, chosen: seq<bool>, tau: int)
    requires |ws| == |eligible| == |chosen|
  {
    && (forall i :: 0 <= i < |ws| && chosen[i] ==> tau <= ws[i])
    && forall i :: 0 <= i < |ws| && eligible[i] && !chosen[i] ==> ws[i] <= tau
  }

  lemma {:induction false} TimesStep(tau: int, c: nat, b: bool)
    ensures tau * (c + if b then 1 else 0) == tau * c + if b then tau else 0
  {
  }

  /** Measured against the threshold, no selection of eligible nodes gains on the chosen one. */
  lemma {:induction false} ExchangeBound(ws: seq<int>, eligible: seq<bool>, chosen: seq<bool>, other: seq<bool>,
                                         tau: int)
    requires |ws| == |eligible| == |chosen| && Within(other, eligible) && Threshold(ws, eligible, chosen, tau)
    ensures Total(ws, other) - tau * Count(other) <= Total(ws, chosen) - tau * Count(chosen)
  {
    if ws != [] {
      var n := |ws| - 1;
      ExchangeBound(ws[..n], eligible[..n], chosen[..n], other[..n], tau);
      TimesStep(tau, Count(other[..n]), other[n]);
      TimesStep(tau, Count(chosen[..n]), chosen[n]);
    }
  }

  lemma {:induction false} TimesMonotone(tau: int, x: nat, y: nat)
    requires tau >= 0 && x <= y
    ensures tau * x <= tau * y
  {
  }

  /**
   * A selection with a non-negative threshold is heaviest among all selections of eligible nodes
   * that use at most `limit` of them, provided it either uses up the limit or leaves out nothing of weight.
   */
  lemma {:induction false} ThresholdIsOptimal(ws: seq<int>, eligible: seq<bool>, chosen: seq<bool>, other: seq<bool>,
                                              tau: int, limit: nat)
    requires |ws| == |eligible| == |chosen| && Within(other, eligible) && Threshold(ws, eligible, chosen, tau)
    requires tau >= 0 && (tau == 0 || Count(chosen) == limit) && Count(other) <= limit
    ensures Total(ws, other) <= Total(ws, chosen)
  {
    ExchangeBound(ws, eligible, chosen, other, tau);
    TimesMonotone(tau, Count(other), if tau == 0 then Count(other) else Count(chosen));
  }

  lemma {:induction false} TotalNone(ws: seq<int>, pick: seq<bool>)
    requires |ws| == |pick| && Count(pick) == 0
    ensures Total(ws, pick) == 0
  {
    if ws != [] {
      TotalNone(ws[..|ws| - 1], pick[..|ws| - 1]);
    }
  }

  /** The elements of a list that are not dropped, in order. */
  function Keep<T>(s: seq<T>, drop: seq<bool>): seq<T>
    requires |s| == |drop|
  {
    if s == [] then [] else (if drop[0] then [] else [s[0]]) + Keep(s[1..], drop[1..])
  }

  /** The elements of left are those of s that are not dropped, found at these places in this order. */
  ghost predicate IsRest<T>(left: seq<T>, s: seq<T>, drop: seq<bool>, at: seq<nat>)
    requires |s| == |drop|
  {
    && |at| == |left| && (forall k, l :: 0 <= k < l < |at| ==> at[k] < at[l])
    && (forall k :: 0 <= k < |at| ==> at[k] < |s| && !drop[at[k]] && left[k] == s[at[k]])
    && forall i :: 0 <= i < |s| && !drop[i] ==> i in at
  }

  lemma {:induction false} OneKept<T>(left: seq<T>, s: seq<T>, drop: seq<bool>, at: seq<nat>, x: T, b: bool)
    requires |s| == |drop| && IsRest(left, s, drop, at)
    ensures IsRest(left + if b then [] else [x], s + [x], drop + [b], at + if b then [] else [|s|])
  {
    var at' := at + if b then [] else [|s|];
    forall i | 0 <= i < |s| + 1 && !(drop + [b])[i]
      ensures i in at'
    {
      if i == |s| {
        assert at'[|at|] == |s|;
      } else {
        assert i in at;
      }
    }
  }

  lemma {:induction false} KeepLast<T>(s: seq<T>, drop: seq<bool>, x: T, b: bool)
    requires |s| == |drop|
    ensures Keep(s + [x], drop + [b]) == Keep(s, drop) + if b then [] else [x]
  {
    if s != [] {
      KeepLast(s[1..], drop[1..], x, b);
      assert (s + [x])[1..] == s[1..] + [x] && (drop + [b])[1..] == drop[1..] + [b];
    }
  }

  lemma {:induction false} KeepIsRest<T>(s: seq<T>, drop: seq<bool>) returns (at: seq<nat>)
    requires |s| == |drop|
    ensures IsRest(Keep(s, drop), s, drop, at)
  {
    if s == [] {
      at := [];
    } else {
      var n := |s| - 1;
      var at0 := KeepIsRest(s[..n], drop[..n]);
      OneKept(Keep(s[..n], drop[..n]), s[..n], drop[..n], at0, s[n], drop[n]);
      KeepLast(s[..n], drop[..n], s[n], drop[n]);
      assert s == s[..n] + [s[n]] && drop == drop[..n] + [drop[n]];
      at := at0 + if drop[n] then [] else [n];
    }
  }

  ghost predicate Distinct(nodes: seq<MultNode>) {
    forall i, j :: 0 <= i < j < |nodes| ==> nodes[i] != nodes[j]
  }

  ghost function Weights(nodes: seq<MultNode>): (ws: seq<int>)
    reads nodes
    ensures |ws| == |nodes| && forall i :: 0 <= i < |ws| ==> ws[i] == nodes[i].weight
  {
    seq(|nodes|, (i: nat) requires i < |nodes| reads nodes => nodes[i].weight)
  }

  /** As many eligible nodes as the limit allows are chosen, and no other such choice is heavier. */
  ghost predicate Heaviest(ws: seq<int>, eligible: seq<bool>, chosen: seq<bool>, limit: nat)
    requires |ws| == |eligible| == |chosen|
  {
    && Count(chosen) == (if limit <= Count(eligible) then limit else Count(eligible))
    && forall other :: Within(other, eligible) && Count(other) <= limit ==> Total(ws, other) <= Total(ws, chosen)
  }

  lemma {:induction false} Finish(ws: seq<int>, eligible: seq<bool>, chosen: seq<bool>, tau: int, limit: nat)
    requires |ws| == |eligible| == |chosen| && Within(chosen, eligible)
    requires forall i :: 0 <= i < |ws| && eligible[i] ==> ws[i] >= 0
    requires Count(chosen) > 0 ==> tau >= 0 && Threshold(ws, eligible, chosen, tau)
    requires Count(chosen) == limit || (Count(chosen) < limit && chosen == eligible)
    ensures Heaviest(ws, eligible, chosen, limit)
  {
    CountMonotone(chosen, eligible);
    forall other | Within(other, eligible) && Count(other) <= limit
      ensures Total(ws, other) <= Total(ws, chosen)
    {
      if chosen == eligible {
        ThresholdIsOptimal(ws, eligible, chosen, other, 0, limit);
      } else if Count(chosen) > 0 {
        ThresholdIsOptimal(ws, eligible, chosen, other, tau, limit);
      } else {
        TotalNone(ws, other);
        TotalNone(ws, chosen);
      }
    }
  }

  const INT_MAX := 0x7fff_ffff

  lemma {:induction false} ScaledDown(n: int, ratio: real)
    requires n >= 0 && 0.0 <= ratio <= 1.0
    ensures 0.0 <= n as real * ratio <= n as real
  {
    var r := n as real;
    assert r * (1.0 - ratio) >= 0.0;
  }

  /** n is m scaled by the ratio and rounded down. */
  ghost predicate IsScaled(n: int, m: int, ratio: real) {
    0 <= n <= m && n as real <= m as real * ratio < n as real + 1.0
  }

  /** Conversion to an integer drops the fraction. */
  function RoundDown(x: real, most: int): (n: int)
    requires 0.0 <= x <= most as real
    ensures 0 <= n <= most && n as real <= x < n as real + 1.0
  {
    x.Floor
  }

  function ScaledCount(m: int, ratio: real): (n: int)
    requires m >= 0 && 0.0 <= ratio <= 1.0
    ensures IsScaled(n, m, ratio)
  {
    ScaledDown(m, ratio);
    RoundDown(m as real * ratio, m)
  }

  function Min(x: int, y: int): (m: int)
    ensures m <= x && m <= y && (m == x || m == y)
  {
    if x < y then x else y
  }

  /** The nodes the erase loop removes: hardened ones and those whose weight was -1 to begin with. */
  ghost function Gone(chosen: seq<bool>, ws: seq<int>): (g: seq<bool>)
    requires |chosen| == |ws|
    ensures |g| == |ws|
  {
    seq(|ws|, (i: nat) requires i < |ws| => chosen[i] || ws[i] == -1)
  }

  lemma {:induction false} KeepStep<T>(s: seq<T>, drop: seq<bool>, i: nat)
    requires i < |s| == |drop|
    ensures Keep(s[i..], drop[i..]) == if drop[i] then Keep(s[i + 1..], drop[i + 1..])
      else [s[i]] + Keep(s[i + 1..], drop[i + 1..])
  {
    assert s[i..][1..] == s[i + 1..] && drop[i..][1..] == drop[i + 1..];
  }

  lemma {:induction false} SkipMiddle<T>(s: seq<T>, i: nat, kept: seq<T>)
    requires i < |s|
    ensures var left := s[..i + 1] + kept;
      left[i] == s[i] && left[..i] + left[i + 1..] == s[..i] + kept && left == s[..i] + ([s[i]] + kept)
  {
  }

  /** The elements to be dropped are gone from position i on, and nothing else is. */
  ghost predicate ErasedFrom<T>(s: seq<T>, drop: seq<bool>, i: nat, left: seq<T>)
    requires i <= |s| == |drop|
  {
    left == s[..i] + Keep(s[i..], drop[i..])
  }

  lemma {:induction false} NothingErased<T>(s: seq<T>, drop: seq<bool>)
    requires |s| == |drop|
    ensures ErasedFrom(s, drop, |s|, s)
  {
  }

  lemma {:induction false} AllErased<T>(s: seq<T>, drop: seq<bool>, left: seq<T>)
    requires |s| == |drop| && ErasedFrom(s, drop, 0, left)
    ensures left == Keep(s, drop)
  {
    assert s[0..] == s && drop[0..] == drop;
  }

  /** Erasing element i of a list whose later elements have been dealt with. */
  lemma {:induction false} EraseStep<T>(s: seq<T>, drop: seq<bool>, i: nat, left: seq<T>)
    requires i < |s| == |drop| && ErasedFrom(s, drop, i + 1, left)
    ensures |left| > i && left[i] == s[i] && ErasedFrom(s, drop, i, if drop[i] then left[..i] + left[i + 1..] else left)
  {
    SkipMiddle(s, i, Keep(s[i + 1..], drop[i + 1..]));
    KeepStep(s, drop, i);
  }

  /** Dropping strictly more elements leaves a strictly shorter list. */
  lemma {:induction false} KeepShrinks<T>(s: seq<T>, drop: seq<bool>, more: seq<bool>, i: nat)
    requires |s| == |drop| == |more| && Within(drop, more)
    requires i <= |s| && (i < |s| ==> more[i] && !drop[i])
    ensures |Keep(s, more)| <= |Keep(s, drop)| && (i < |s| ==> |Keep(s, more)| < |Keep(s, drop)|)
  {
    if s != [] {
      KeepShrinks(s[1..], drop[1..], more[1..], if i > 0 then i - 1 else |s| - 1);
    }
  }

  /** Without the nodes gone the list is the one without the chosen nodes just when no weight was -1 before. */
  lemma {:induction false} GoneExact<T>(s: seq<T>, chosen: seq<bool>, ws: seq<int>)
    requires |s| == |chosen| == |ws| && forall i :: 0 <= i < |ws| && chosen[i] ==> ws[i] >= 0
    ensures Keep(s, Gone(chosen, ws)) == Keep(s, chosen) <==> forall i :: 0 <= i < |ws| ==> ws[i] != -1
  {
    if forall i :: 0 <= i < |ws| ==> ws[i] != -1 {
      assert Gone(chosen, ws) == chosen;
    } else {
      var i :| 0 <= i < |ws| && ws[i] == -1;
      assert !chosen[i];
      KeepShrinks(s, chosen, Gone(chosen, ws), i);
    }
  }

  class MultsOpt {
    var blocksCount: int
    const hardMultipliers: bool
    const minMult: int
    const ratio: real

    constructor (blocksCount: int, ratio: real, hardMultipliers: bool, minMult: int)
      ensures this.blocksCount == blocksCount && this.ratio == ratio
      ensures this.hardMultipliers == hardMultipliers && this.minMult == minMult
    {
      this.blocksCount, this.ratio, this.hardMultipliers, this.minMult := blocksCount, ratio, hardMultipliers, minMult;
    }

    /** Lowers the count to what is needed and scales it down; fails on a count or ratio out of range. */
    method SetBlocksNeeded(newCount: int) returns (ok: bool)
      modifies this`blocksCount
      ensures var m := Min(Min(newCount, INT_MAX), old(blocksCount));
        && (ok <==> 0 <= m && m != INT_MAX && 0.0 <= ratio <= 1.0)
        && (ok ==> IsScaled(blocksCount, m, ratio))
    {
      var hardBlocksCount := INT_MAX;
      if hardBlocksCount > newCount {
        hardBlocksCount := newCount;
      }
      if hardBlocksCount < blocksCount {
        blocksCount := hardBlocksCount;
      }
      if blocksCount < 0 || blocksCount == INT_MAX || ratio < 0.0 || ratio > 1.0 {
        return false;
      }
      blocksCount := ScaledCount(blocksCount, ratio);
      ok := true;
    }

    predicate Hardenable(node: MultNode): (r: bool)
      ensures r <==> hardMultipliers && (node.portSize0 > minMult || node.portSize1 > minMult)
    {
      var multSize := if node.portSize0 >= node.portSize1 then node.portSize0 else node.portSize1;
      hardMultipliers && multSize > minMult
    }

    /** The nodes the selection loop can ever pick. */
    ghost function Eligible(nodes: seq<MultNode>, ws: seq<int>): (e: seq<bool>)
      requires |ws| == |nodes|
      ensures |e| == |nodes| && forall i :: 0 <= i < |e| ==> e[i] == (Hardenable(nodes[i]) && ws[i] >= 0)
    {
      seq(|nodes|, (i: nat) requires i < |nodes| => Hardenable(nodes[i]) && ws[i] >= 0)
    }

    /** The first of the heaviest hardenable nodes, or -1 if only weights of -1 and below are left. */
    method FindHeaviest(nodes: seq<MultNode>) returns (index: int)
      ensures -1 <= index < |nodes|
      ensures index >= 0 ==> Hardenable(nodes[index]) && nodes[index].weight >= 0
      ensures index >= 0 ==> forall j :: 0 <= j < |nodes| && Hardenable(nodes[j]) ==>
        nodes[j].weight <= nodes[index].weight
      ensures index >= 0 ==> forall j :: 0 <= j < index && Hardenable(nodes[j]) ==>
        nodes[j].weight < nodes[index].weight
      ensures index < 0 ==> forall j :: 0 <= j < |nodes| && Hardenable(nodes[j]) ==> nodes[j].weight < 0
    {
      var maximalCost := -1;
      index := -1;
      for j := 0 to |nodes|
        invariant -1 <= index < j
        invariant if index < 0 then maximalCost == -1
          else maximalCost == nodes[index].weight >= 0 && Hardenable(nodes[index])
        invariant forall k :: 0 <= k < j && Hardenable(nodes[k]) ==> nodes[k].weight <= maximalCost
        invariant forall k :: 0 <= k < index && Hardenable(nodes[k]) ==> nodes[k].weight < maximalCost
      {
        if maximalCost < nodes[j].weight && Hardenable(nodes[j]) {
          maximalCost := nodes[j].weight;
          index := j;
        }
      }
    }

    /** The nodes chosen so far have lost their weight, and none left out is heavier than one chosen. */
    ghost predicate Selecting(nodes: seq<MultNode>, ws: seq<int>, chosen: seq<bool>, tau: int)
      requires |ws| == |chosen| == |nodes|
      reads nodes
    {
      && (forall i :: 0 <= i < |nodes| ==> nodes[i].weight == if chosen[i] then -1 else ws[i])
      && Within(chosen, Eligible(nodes, ws))
      && (Count(chosen) > 0 ==> tau >= 0 && Threshold(ws, Eligible(nodes, ws), chosen, tau))
    }

    /** One round of the selection: harden the heaviest node, if any is left. */
    method HardenHeaviest(nodes: seq<MultNode>, ghost ws: seq<int>, ghost chosen0: seq<bool>, ghost tau0: int)
      returns (index: int, ghost chosen: seq<bool>, ghost tau: int)
      requires Distinct(nodes) && |ws| == |chosen0| == |nodes| && Selecting(nodes, ws, chosen0, tau0)
      modifies nodes
      ensures |chosen| == |nodes| && Selecting(nodes, ws, chosen, tau)
      ensures -1 <= index < |nodes|
      ensures index < 0 ==> chosen == chosen0 == Eligible(nodes, ws)
      ensures index >= 0 ==> !chosen0[index] && chosen == chosen0[index := true]
      ensures forall k :: 0 <= k < |nodes| ==> nodes[k].hardened == (k == index || old(nodes[k].hardened))
    {
      index := FindHeaviest(nodes);
      chosen, tau := chosen0, tau0;
      if index < 0 {
        forall j | 0 <= j < |nodes|
          ensures chosen[j] == Eligible(nodes, ws)[j]
        {
          assert Hardenable(nodes[j]) ==> nodes[j].weight < 0;
        }
      } else {
        CountPick(chosen, index);
        forall i | 0 <= i < |nodes| && chosen[i]
          ensures Count(chosen) > 0
        {
          CountSome(chosen, i);
        }
        tau, chosen := nodes[index].weight, chosen[index := true];
        nodes[index].weight := -1;
        nodes[index].hardened := true;
      }
    }

    /** Turns the heaviest nodes into hard blocks, as many as there are blocks for. */
    method SelectHard(nodes: seq<MultNode>) returns (ghost chosen: seq<bool>)
      requires Distinct(nodes)
      modifies nodes
      ensures |chosen| == |nodes| && Within(chosen, Eligible(nodes, old(Weights(nodes))))
      ensures forall i :: 0 <= i < |nodes| ==>
        && nodes[i].weight == (if chosen[i] then -1 else old(nodes[i].weight))
        && nodes[i].hardened == (chosen[i] || old(nodes[i].hardened))
      ensures Heaviest(old(Weights(nodes)), Eligible(nodes, old(Weights(nodes))), chosen,
                       if blocksCount > 0 then blocksCount else 0)
    {
      ghost var ws := Weights(nodes);
      ghost var eligible := Eligible(nodes, ws);
      ghost var tau := 0;
      chosen := seq(|nodes|, _ => false);
      CountNone(chosen);
      var i := 0;
      while i < blocksCount
        invariant 0 <= i && |chosen| == |nodes| && Count(chosen) == i
        invariant blocksCount > 0 ==> i <= blocksCount
        invariant blocksCount <= 0 ==> i == 0
        invariant Selecting(nodes, ws, chosen, tau)
        invariant forall k :: 0 <= k < |nodes| ==> nodes[k].hardened == (chosen[k] || old(nodes[k].hardened))
      {
        ghost var before := chosen;
        var index;
        index, chosen, tau := HardenHeaviest(nodes, ws, chosen, tau);
        if index < 0 {
          break;
        }
        CountPick(before, index);
        i := i + 1;
      }
      Finish(ws, eligible, chosen, tau, if blocksCount > 0 then blocksCount else 0);
    }

    /** Which nodes carry the mark -1. */
    ghost function Marked(nodes: seq<MultNode>): (drop: seq<bool>)
      reads nodes
      ensures |drop| == |nodes| && forall i :: 0 <= i < |nodes| ==> drop[i] == (nodes[i].weight == -1)
    {
      seq(|nodes|, (i: nat) requires i < |nodes| reads nodes => nodes[i].weight == -1)
    }

    /** Removes the nodes marked -1 from the end of the vector backwards. */
    method EraseHard(nodes: seq<MultNode>) returns (left: seq<MultNode>)
      ensures left == Keep(nodes, Marked(nodes))
    {
      ghost var drop := Marked(nodes);
      left := nodes;
      NothingErased(nodes, drop);
      var i := |nodes| - 1;
      while i >= 0
        invariant -1 <= i < |nodes|
        invariant ErasedFrom(nodes, drop, i + 1, left)
      {
        EraseStep(nodes, drop, i, left);
        if left[i].weight == -1 {
          left := left[..i] + left[i + 1..];
        }
        i := i - 1;
      }
      AllErased(nodes, drop, left);
    }

    /**
     * Implements the heaviest multipliers as hard blocks and takes them out of the vector. What is left
     * are the other nodes in their original order, unless some node came in with the weight -1 that
     * is reserved for hardened ones.
     */
    method Perform(nodes: seq<MultNode>) returns (left: seq<MultNode>, ghost chosen: seq<bool>)
      requires Distinct(nodes)
      modifies nodes
      ensures |chosen| == |nodes| && Within(chosen, Eligible(nodes, old(Weights(nodes))))
      ensures forall i :: 0 <= i < |nodes| ==> nodes[i].hardened == (chosen[i] || old(nodes[i].hardened))
      ensures Heaviest(old(Weights(nodes)), Eligible(nodes, old(Weights(nodes))), chosen,
                       if blocksCount > 0 then blocksCount else 0)
      ensures left == Keep(nodes, Gone(chosen, old(Weights(nodes))))
      ensures exists at: seq<nat> :: IsRest(left, nodes, Gone(chosen, old(Weights(nodes))), at)
      ensures left == Keep(nodes, chosen) <==> forall i :: 0 <= i < |nodes| ==> old(nodes[i].weight) != -1
    {
      ghost var ws := Weights(nodes);
      chosen := SelectHard(nodes);
      left := EraseHard(nodes);
      assert Marked(nodes) == Gone(chosen, ws);
      GoneExact(nodes, chosen, ws);
      ghost var at := KeepIsRest(nodes, Gone(chosen, ws));
    }
  }
}
