/** One evaluation pass of the activity simulator against full re-evaluation. */
module SimulatorCycle {
  import opened Network
  import opened Simulator

  ghost predicate Context(net: Net, live: seq<bool>, prev: Values, infos: Infos) {
    && WellFormed(net) && IsLiveMarking(net, live)
    && |prev| == |infos| == |net.kind|
  }

  /** A source is New or Old, and Old means: same value as in the last cycle. */
  ghost predicate SourceReady(i: Info, before: int, first: bool) {
    && (i.status == New || i.status == Old)
    && (i.status == Old ==> !first && i.value == before)
  }

  /** What holds of a logic object before it is evaluated. */
  ghost predicate ItemReady(net: Net, live: seq<bool>, prev: Values, first: bool, infos: Infos, x: nat)
    requires Context(net, live, prev, infos) && x < |net.kind| && FaninsIn(net, x, |prev|)
    requires net.kind[x] == PrimaryOut ==> |net.fanins[x]| >= 1
  {
    && infos[x].value == prev[x]
    && (if first then infos[x].status == Undef && prev[x] == 0 else infos[x].status == New || infos[x].status == Old)
    && (!live[x] ==> prev[x] == 0)
    && (live[x] && !first ==> prev[x] == Gate(net, x, prev))
  }

  /** What holds of a logic object once it is evaluated. */
  ghost predicate ItemDone(net: Net, live: seq<bool>, prev: Values, first: bool, before: Info, cur: Infos, x: nat)
    requires Context(net, live, prev, cur) && x < |net.kind| && FaninsIn(net, x, |prev|)
    requires net.kind[x] == PrimaryOut ==> |net.fanins[x]| >= 1
  {
    && (cur[x].status == New || cur[x].status == Old)
    && cur[x].ones == before.ones + cur[x].value
    && cur[x].toggles == before.toggles + (if !first && cur[x].value != prev[x] then 1 else 0)
    && if live[x] then
         && cur[x].value == Gate(net, x, ValuesOf(cur))
         && (first ==> cur[x].status == New)
         && (cur[x].status == Old ==> !first && cur[x].value == prev[x])
       else cur[x].status == Old && cur[x].value == 0 && prev[x] == 0
  }

  ghost predicate SourcesReady(net: Net, prev: Values, first: bool, infos: Infos)
    requires |prev| == |infos|
  {
    forall x: nat :: x < |infos| && IsSource(net, x) ==> SourceReady(infos[x], prev[x], first)
  }

  ghost predicate ItemAt(net: Net, live: seq<bool>, prev: Values, first: bool, before: Infos, cur: Infos, k: nat,
                         j: nat)
    requires Context(net, live, prev, before) && |cur| == |before| && j < |net.order| && ItemOk(net, j)
      && IsLogic(net, net.order[j])
  {
    var x := net.order[j];
    FaninsReady(net, j);
    if j < k then ItemDone(net, live, prev, first, before[x], cur, x)
    else cur[x] == before[x] && ItemReady(net, live, prev, first, before, x)
  }

  /** The first k objects of the order are done, the others are as they were. */
  ghost predicate Progress(net: Net, live: seq<bool>, prev: Values, first: bool, before: Infos, cur: Infos, k: nat)
    requires Context(net, live, prev, before) && k <= |net.order|
  {
    && |cur| == |before|
    && SourcesReady(net, prev, first, cur)
    && (forall x: nat :: x < |cur| && IsSource(net, x) ==> cur[x] == before[x])
    && (forall j: nat {:trigger ItemOk(net, j)} :: j < |net.order| && ItemOk(net, j) && IsLogic(net, net.order[j]) ==>
          ItemAt(net, live, prev, first, before, cur, k, j))
  }

  /** A fanin of the object about to be evaluated is New or Old; New means live, Old means unchanged. */
  ghost predicate FaninSeen(live: seq<bool>, prev: Values, first: bool, cur: Infos, f: nat)
    requires f < |live| == |prev| == |cur|
  {
    && (cur[f].status == New || cur[f].status == Old)
    && (cur[f].status == New ==> live[f])
    && (cur[f].status == Old ==> if first then !live[f] else cur[f].value == prev[f])
  }

  lemma {:induction false} FaninIsSeen(net: Net, live: seq<bool>, prev: Values, first: bool, before: Infos,
                                       cur: Infos, k: nat, i: nat)
    requires Context(net, live, prev, before) && k < |net.order| && Progress(net, live, prev, first, before, cur, k)
    requires IsLogic(net, net.order[k]) && i < |net.fanins[net.order[k]]|
    ensures net.fanins[net.order[k]][i] < |cur|
    ensures FaninSeen(live, prev, first, cur, net.fanins[net.order[k]][i])
  {
    assert ItemOk(net, k);
    var f := net.fanins[net.order[k]][i];
    assert ReadyBefore(net, k, f);
    if !IsSource(net, f) {
      var j: nat :| j < k && net.order[j] == f;
      assert ItemOk(net, j);
      assert ItemAt(net, live, prev, first, before, cur, k, j);
    }
  }

  /** Evaluating an object gives it the value of its gate and the right status and counts. */
  lemma {:induction false} ObjectDone(net: Net, live: seq<bool>, prev: Values, first: bool, before: Infos,
                                      cur: Infos, k: nat, cur': Infos)
    requires Context(net, live, prev, before) && k < |net.order| && Progress(net, live, prev, first, before, cur, k)
    requires IsLogic(net, net.order[k])
    requires FaninsIn(net, net.order[k], |cur|)
      && (net.kind[net.order[k]] == PrimaryOut ==> |net.fanins[net.order[k]]| >= 1)
    requires cur' == cur[net.order[k] := NextInfo(cur[net.order[k]], FaninStatus(net.fanins[net.order[k]], cur),
                                                  Gate(net, net.order[k], ValuesOf(cur)))]
    ensures ItemDone(net, live, prev, first, before[net.order[k]], cur', net.order[k])
  {
    var x, fanins := net.order[k], net.fanins[net.order[k]];
    assert ItemOk(net, k);
    assert ItemAt(net, live, prev, first, before, cur, k, k);
    forall i | 0 <= i < |fanins|
      ensures FaninSeen(live, prev, first, cur, fanins[i]) && fanins[i] != x
    {
      FaninIsSeen(net, live, prev, first, before, cur, k, i);
      assert ReadyBefore(net, k, fanins[i]);
    }
    GateLocal(net, x, ValuesOf(cur), ValuesOf(cur'));
    if FaninStatus(fanins, cur) == Old && !first {
      GateLocal(net, x, ValuesOf(cur), prev);
    }
  }

  lemma {:induction false} EarlierStays(net: Net, live: seq<bool>, prev: Values, first: bool, before: Infos,
                                        cur: Infos, k: nat, cur': Infos, j: nat)
    requires Context(net, live, prev, before) && j < k < |net.order| && Progress(net, live, prev, first, before, cur, k)
    requires IsLogic(net, net.order[k]) && IsLogic(net, net.order[j]) && ItemOk(net, j)
    requires |cur'| == |cur| && forall y: nat :: y < |cur| && y != net.order[k] ==> cur'[y] == cur[y]
    ensures ItemAt(net, live, prev, first, before, cur', k + 1, j)
  {
    assert ItemOk(net, k);
    assert net.order[..k][j] == net.order[j];
    assert ItemAt(net, live, prev, first, before, cur, k, j);
    FaninsReady(net, j);
    EarlierGateStays(net, j, k, ValuesOf(cur), ValuesOf(cur'));
  }

  lemma {:induction false} EvalStep(net: Net, live: seq<bool>, prev: Values, first: bool, before: Infos, cur: Infos,
                                    k: nat, cur': Infos)
    requires Context(net, live, prev, before) && k < |net.order| && Progress(net, live, prev, first, before, cur, k)
    requires IsLogic(net, net.order[k])
    requires FaninsIn(net, net.order[k], |cur|)
      && (net.kind[net.order[k]] == PrimaryOut ==> |net.fanins[net.order[k]]| >= 1)
    requires cur' == cur[net.order[k] := NextInfo(cur[net.order[k]], FaninStatus(net.fanins[net.order[k]], cur),
                                                  Gate(net, net.order[k], ValuesOf(cur)))]
    ensures Progress(net, live, prev, first, before, cur', k + 1)
  {
    ObjectDone(net, live, prev, first, before, cur, k, cur');
    assert ItemOk(net, k);
    forall j: nat | j < |net.order| && ItemOk(net, j) && IsLogic(net, net.order[j])
      ensures ItemAt(net, live, prev, first, before, cur', k + 1, j)
    {
      if j < k {
        EarlierStays(net, live, prev, first, before, cur, k, cur', j);
      } else if j > k {
        assert net.order[..j][k] == net.order[k];
        assert ItemAt(net, live, prev, first, before, cur, k, j);
      }
    }
  }

  lemma {:induction false} SkipStep(net: Net, live: seq<bool>, prev: Values, first: bool, before: Infos, cur: Infos,
                                    k: nat)
    requires Context(net, live, prev, before) && k < |net.order| && Progress(net, live, prev, first, before, cur, k)
    requires !IsLogic(net, net.order[k])
    ensures Progress(net, live, prev, first, before, cur, k + 1)
  {
    forall j: nat | j < |net.order| && ItemOk(net, j) && IsLogic(net, net.order[j])
      ensures ItemAt(net, live, prev, first, before, cur, k + 1, j)
    {
      assert ItemAt(net, live, prev, first, before, cur, k, j);
    }
  }
}
