/** Whole runs of the activity simulator. */
module SimulatorRun {
  import opened Network
  import opened Simulator
  import opened SimulatorCycle

  // ----- counting -----

  /** The number of cycles a signal was 1. */
  function Ones(c: seq<int>): int {
    if c == [] then 0 else Ones(c[..|c| - 1]) + c[|c| - 1]
  }

  /** The number of times a signal changed from one cycle to the next. */
  function Changes(c: seq<int>): nat {
    if |c| < 2 then 0 else Changes(c[..|c| - 1]) + if c[|c| - 1] != c[|c| - 2] then 1 else 0
  }

  lemma {:induction false} CountSnoc(c: seq<int>, v: int)
    ensures Ones(c + [v]) == Ones(c) + v
    ensures Changes(c + [v]) == Changes(c) + if |c| > 0 && c[|c| - 1] != v then 1 else 0
  {
    assert (c + [v])[..|c|] == c;
  }

  /** The values of object x over a run. */
  ghost function Column(run: seq<Values>, x: nat): (c: seq<int>)
    requires forall t :: 0 <= t < |run| ==> x < |run[t]|
    ensures |c| == |run|
  {
    seq(|run|, (t: nat) requires t < |run| => run[t][x])
  }

  lemma {:induction false} ColumnSnoc(run: seq<Values>, v: Values, x: nat)
    requires x < |v| && forall t :: 0 <= t < |run| ==> x < |run[t]|
    ensures Column(run + [v], x) == Column(run, x) + [v[x]]
  {
  }

  ghost predicate Shaped(net: Net, run: seq<Values>) {
    forall t :: 0 <= t < |run| ==> |run[t]| == |net.kind|
  }

  /** The counts of object x are those of its run so far; a primary input counts from an initial 0. */
  ghost predicate Counted(net: Net, run: seq<Values>, i: Info, x: nat)
    requires Shaped(net, run) && x < |net.kind|
  {
    var c := Column(run, x);
    && i.ones == Ones(c)
    && i.toggles == Changes(if net.kind[x] == PrimaryIn then [0] + c else c)
  }

  // ----- the states between the passes of a cycle -----

  ghost function Prev(net: Net, run: seq<Values>): (v: Values)
    requires Shaped(net, run)
    ensures |v| == |net.kind|
  {
    if run == [] then seq(|net.kind|, _ => 0) else run[|run| - 1]
  }

  ghost predicate LiveGate(net: Net, live: seq<bool>, v: Values, k: nat)
    requires WellFormed(net) && |live| == |v| == |net.kind| && k < |net.order| && ItemOk(net, k)
      && IsLogic(net, net.order[k])
  {
    FaninsReady(net, k);
    if live[net.order[k]] then v[net.order[k]] == Gate(net, net.order[k], v) else v[net.order[k]] == 0
  }

  ghost predicate LiveSettled(net: Net, live: seq<bool>, v: Values)
    requires WellFormed(net) && |live| == |net.kind|
  {
    && |v| == |net.kind|
    && forall k: nat {:trigger ItemOk(net, k)} :: k < |net.order| && ItemOk(net, k) && IsLogic(net, net.order[k]) ==>
      LiveGate(net, live, v, k)
  }

  ghost predicate LiveCycle(net: Net, live: seq<bool>, traces: seq<seq<int>>, run: seq<Values>, t: nat)
    requires WellFormed(net) && RunShape(net, traces, run) && t < |run| && |live| == |net.kind|
  {
    LiveSettled(net, live, run[t]) && InputsFollow(net, traces, run[t], t) && LatchesFollow(net, run, t)
  }

  ghost predicate LiveRun(net: Net, live: seq<bool>, traces: seq<seq<int>>, run: seq<Values>)
    requires WellFormed(net) && |live| == |net.kind|
  {
    && RunShape(net, traces, run)
    && forall t: nat {:trigger LiveCycle(net, live, traces, run, t)} :: t < |run| ==>
      LiveCycle(net, live, traces, run, t)
  }

  ghost predicate LatchReady(net: Net, prev: Values, first: bool, infos: Infos, j: nat)
    requires WellFormed(net) && j < |net.latches| && LatchOk(net, j) && |infos| == |prev| == |net.kind|
  {
    DataInRange(net, j);
    var l := net.latches[j];
    && SourceReady(infos[l.bo], prev[l.bo], first)
    && infos[l.bo].value == if first then 0 else prev[l.data]
  }

  ghost predicate PiReady(i: Info, before: int, first: bool) {
    if first then i.status == Undef && i.value == 0 else (i.status == New || i.status == Old) && i.value == before
  }

  ghost predicate LogicReady(net: Net, live: seq<bool>, run: seq<Values>, infos: Infos, k: nat)
    requires Shaped(net, run) && Context(net, live, Prev(net, run), infos)
    requires k < |net.order| && ItemOk(net, k) && IsLogic(net, net.order[k])
  {
    FaninsReady(net, k);
    ItemReady(net, live, Prev(net, run), run == [], infos, net.order[k])
      && Counted(net, run, infos[net.order[k]], net.order[k])
  }

  /** The state at the start of a cycle, after the cycles of run. */
  ghost predicate Between(net: Net, live: seq<bool>, run: seq<Values>, infos: Infos)
    requires Shaped(net, run)
  {
    var prev, first := Prev(net, run), run == [];
    && Context(net, live, prev, infos)
    && (forall x: nat :: x < |infos| && net.kind[x] == PrimaryIn ==>
          PiReady(infos[x], prev[x], first) && Counted(net, run, infos[x], x))
    && (forall j: nat {:trigger LatchOk(net, j)} :: j < |net.latches| && LatchOk(net, j) ==>
          LatchReady(net, prev, first, infos, j))
    && (forall k: nat {:trigger ItemOk(net, k)} :: k < |net.order| && ItemOk(net, k) && IsLogic(net, net.order[k]) ==>
          LogicReady(net, live, run, infos, k))
  }

  // ----- pass 1: primary inputs -----

  ghost predicate InputsRead(net: Net, traces: seq<seq<int>>, infos: Infos, infos': Infos, t: nat)
    requires |traces| == |net.kind| && forall x :: 0 <= x < |traces| && net.kind[x] == PrimaryIn ==> t < |traces[x]|
  {
    && |infos'| == |infos| == |net.kind|
    && forall x :: 0 <= x < |infos| ==>
      infos'[x] == if net.kind[x] == PrimaryIn then PiInfo(infos[x], traces[x][t]) else infos[x]
  }

  lemma {:induction false} PiCounts(net: Net, run: seq<Values>, i: Info, x: nat, v: int)
    requires Shaped(net, run) && x < |net.kind| && net.kind[x] == PrimaryIn && (v == 0 || v == 1)
    requires PiReady(i, Prev(net, run)[x], run == []) && Counted(net, run, i, x)
    requires run != [] ==> run[|run| - 1][x] == 0 || run[|run| - 1][x] == 1
    ensures var i', c := PiInfo(i, v), Column(run, x) + [v];
      i'.value == v && SourceReady(i', Prev(net, run)[x], run == []) && i'.ones == Ones(c)
        && i'.toggles == Changes([0] + c)
  {
    var c := Column(run, x);
    CountSnoc(c, v);
    CountSnoc([0] + c, v);
    assert [0] + (c + [v]) == ([0] + c) + [v];
  }

  /** After the inputs are read, every source is New or unchanged, and the evaluation pass may start. */
  lemma {:induction false} AfterInputs(net: Net, live: seq<bool>, traces: seq<seq<int>>, run: seq<Values>,
                                       infos: Infos, infos': Infos)
    requires Shaped(net, run) && Between(net, live, run, infos)
    requires |traces| == |net.kind| && forall x :: 0 <= x < |traces| && net.kind[x] == PrimaryIn ==> |run| < |traces[x]|
    requires forall x, t :: 0 <= x < |traces| && 0 <= t < |traces[x]| ==> traces[x][t] == 0 || traces[x][t] == 1
    requires InputsRead(net, traces, infos, infos', |run|)
    requires LiveRun(net, live, traces, run)
    ensures Progress(net, live, Prev(net, run), run == [], infos', infos', 0)
  {
    var prev, first := Prev(net, run), run == [];
    forall x: nat | x < |infos'| && IsSource(net, x)
      ensures SourceReady(infos'[x], prev[x], first)
    {
      if net.kind[x] == PrimaryIn {
        if run != [] {
          assert LiveCycle(net, live, traces, run, |run| - 1);
        }
        PiCounts(net, run, infos[x], x, traces[x][|run|]);
      } else {
        var j: nat :| j < |net.latches| && net.latches[j].bo == x;
        assert LatchOk(net, j);
        assert LatchReady(net, prev, first, infos, j);
      }
    }
    forall k: nat | k < |net.order| && ItemOk(net, k) && IsLogic(net, net.order[k])
      ensures ItemAt(net, live, prev, first, infos', infos', 0, k)
    {
      assert LogicReady(net, live, run, infos, k);
    }
  }

  // ----- pass 2: evaluation -----

  /** Enough input values for n cycles, all of them bits. */
  ghost predicate TracesOk(net: Net, traces: seq<seq<int>>, n: nat) {
    && |traces| == |net.kind|
    && (forall x :: 0 <= x < |traces| && net.kind[x] == PrimaryIn ==> n <= |traces[x]|)
    && forall x, t :: 0 <= x < |traces| && 0 <= t < |traces[x]| ==> traces[x][t] == 0 || traces[x][t] == 1
  }

  /** Everything known when the three passes of a cycle meet: before, after the inputs, after evaluation. */
  ghost predicate CyclePasses(net: Net, live: seq<bool>, traces: seq<seq<int>>, run: seq<Values>, infos: Infos,
                              infos': Infos, cur: Infos)
  {
    && Shaped(net, run) && Between(net, live, run, infos) && LiveRun(net, live, traces, run)
    && TracesOk(net, traces, |run| + 1)
    && InputsRead(net, traces, infos, infos', |run|)
    && Progress(net, live, Prev(net, run), run == [], infos', cur, |net.order|)
  }

  /** Counting one more cycle of an object that is not an input. */
  lemma {:induction false} CountsGoOn(net: Net, run: seq<Values>, x: nat, before: Info, after: Info, v: Values)
    requires Shaped(net, run) && |v| == |net.kind| && x < |net.kind| && net.kind[x] != PrimaryIn
    requires Counted(net, run, before, x) && after.ones == before.ones + v[x]
    requires after.toggles == before.toggles + if run != [] && v[x] != run[|run| - 1][x] then 1 else 0
    ensures Shaped(net, run + [v]) && Counted(net, run + [v], after, x)
  {
    ColumnSnoc(run, v, x);
    CountSnoc(Column(run, x), v[x]);
  }

  lemma {:induction false} LogicCounts(net: Net, live: seq<bool>, traces: seq<seq<int>>, run: seq<Values>,
                                       infos: Infos, infos': Infos, cur: Infos, k: nat)
    requires CyclePasses(net, live, traces, run, infos, infos', cur)
    requires k < |net.order| && ItemOk(net, k) && IsLogic(net, net.order[k])
    ensures cur[net.order[k]].status == New || cur[net.order[k]].status == Old
    ensures LiveGate(net, live, ValuesOf(cur), k)
    ensures Shaped(net, run + [ValuesOf(cur)]) && Counted(net, run + [ValuesOf(cur)], cur[net.order[k]], net.order[k])
    ensures cur[net.order[k]].status == Old ==>
      if run == [] then ValuesOf(cur)[net.order[k]] == 0
        else ValuesOf(cur)[net.order[k]] == Prev(net, run)[net.order[k]]
  {
    var x, v := net.order[k], ValuesOf(cur);
    assert LogicReady(net, live, run, infos, k);
    assert ItemAt(net, live, Prev(net, run), run == [], infos', cur, |net.order|, k);
    CountsGoOn(net, run, x, infos'[x], cur[x], v);
  }

  lemma {:induction false} PiDone(net: Net, live: seq<bool>, traces: seq<seq<int>>, run: seq<Values>, infos: Infos,
                                  infos': Infos, cur: Infos, x: nat)
    requires CyclePasses(net, live, traces, run, infos, infos', cur)
    requires x < |cur| && net.kind[x] == PrimaryIn
    ensures cur[x].value == traces[x][|run|] && SourceReady(cur[x], Prev(net, run)[x], run == [])
    ensures Shaped(net, run + [ValuesOf(cur)]) && Counted(net, run + [ValuesOf(cur)], cur[x], x)
  {
    assert IsSource(net, x);
    if run != [] {
      assert LiveCycle(net, live, traces, run, |run| - 1);
    }
    PiCounts(net, run, infos[x], x, traces[x][|run|]);
    ColumnSnoc(run, ValuesOf(cur), x);
  }

  /** The latch outputs of this cycle hold last cycle's data. */
  lemma {:induction false} LatchHeld(net: Net, live: seq<bool>, traces: seq<seq<int>>, run: seq<Values>,
                                     infos: Infos, infos': Infos, cur: Infos, j: nat)
    requires CyclePasses(net, live, traces, run, infos, infos', cur)
    requires j < |net.latches| && LatchOk(net, j)
    ensures net.latches[j].data < |cur|
    ensures cur[net.latches[j].bo].value == if run == [] then 0 else Prev(net, run)[net.latches[j].data]
  {
    DataInRange(net, j);
    assert LatchReady(net, Prev(net, run), run == [], infos, j);
    assert IsSource(net, net.latches[j].bo);
  }

  /** A data object that did not change this cycle agrees with the latch output it feeds. */
  lemma {:induction false} DataUnchanged(net: Net, live: seq<bool>, traces: seq<seq<int>>, run: seq<Values>,
                                         infos: Infos, infos': Infos, cur: Infos, j: nat)
    requires CyclePasses(net, live, traces, run, infos, infos', cur)
    requires j < |net.latches| && LatchOk(net, j)
    ensures net.latches[j].data < |cur|
    ensures SourceReady(cur[net.latches[j].data], cur[net.latches[j].bo].value, false)
  {
    var d := net.latches[j].data;
    DataInRange(net, j);
    LatchHeld(net, live, traces, run, infos, infos', cur, j);
    if IsSource(net, d) {
      assert SourceReady(cur[d], Prev(net, run)[d], run == []);
    } else {
      var k: nat :| k < |net.order| && net.order[k] == d;
      assert ItemOk(net, k);
      LogicCounts(net, live, traces, run, infos, infos', cur, k);
    }
  }

  /** The state after the evaluation pass, v being the values of the cycle. */
  ghost predicate Evaluated(net: Net, run: seq<Values>, cur: Infos)
    requires WellFormed(net) && Shaped(net, run)
  {
    && run != [] && |cur| == |net.kind| && run[|run| - 1] == ValuesOf(cur)
    && (forall x: nat :: x < |cur| && net.kind[x] == PrimaryIn ==>
          PiReady(cur[x], cur[x].value, false) && Counted(net, run, cur[x], x))
    && (forall k: nat {:trigger ItemOk(net, k)} :: k < |net.order| && ItemOk(net, k) && IsLogic(net, net.order[k]) ==>
          PiReady(cur[net.order[k]], cur[net.order[k]].value, false)
            && Counted(net, run, cur[net.order[k]], net.order[k]))
    && (forall j: nat {:trigger LatchOk(net, j)} ::
          j < |net.latches| && LatchOk(net, j) && net.latches[j].data < |cur| ==>
          SourceReady(cur[net.latches[j].data], cur[net.latches[j].bo].value, false))
  }

  lemma {:induction false} LiveRunGrows(net: Net, live: seq<bool>, traces: seq<seq<int>>, run: seq<Values>, v: Values)
    requires WellFormed(net) && |live| == |net.kind| && LiveRun(net, live, traces, run) && LiveSettled(net, live, v)
    requires |traces| == |net.kind| && forall x :: 0 <= x < |traces| && net.kind[x] == PrimaryIn ==>
      |run| + 1 <= |traces[x]|
    requires InputsFollow(net, traces, v, |run|)
    requires forall j: nat {:trigger LatchOk(net, j)} :: j < |net.latches| && LatchOk(net, j) ==>
      net.latches[j].data < |net.kind| && v[net.latches[j].bo] == if run == [] then 0
        else run[|run| - 1][net.latches[j].data]
    ensures LiveRun(net, live, traces, run + [v])
  {
    var run' := run + [v];
    forall t: nat | t < |run'|
      ensures LiveCycle(net, live, traces, run', t)
    {
      if t < |run| {
        assert LiveCycle(net, live, traces, run, t);
        assert run'[t] == run[t] && (t > 0 ==> run'[t - 1] == run[t - 1]);
      }
    }
  }

  lemma {:induction false} AfterEvaluation(net: Net, live: seq<bool>, traces: seq<seq<int>>, run: seq<Values>,
                                           infos: Infos, infos': Infos, cur: Infos)
    requires CyclePasses(net, live, traces, run, infos, infos', cur)
    ensures LiveRun(net, live, traces, run + [ValuesOf(cur)])
    ensures Evaluated(net, run + [ValuesOf(cur)], cur)
  {
    var v := ValuesOf(cur);
    var run' := run + [v];
    forall k: nat | k < |net.order| && ItemOk(net, k) && IsLogic(net, net.order[k])
      ensures LiveGate(net, live, v, k)
      ensures PiReady(cur[net.order[k]], v[net.order[k]], false) && Counted(net, run', cur[net.order[k]], net.order[k])
    {
      LogicCounts(net, live, traces, run, infos, infos', cur, k);
    }
    forall x: nat | x < |cur| && net.kind[x] == PrimaryIn
      ensures v[x] == traces[x][|run|] && PiReady(cur[x], v[x], false) && Counted(net, run', cur[x], x)
    {
      PiDone(net, live, traces, run, infos, infos', cur, x);
    }
    forall j: nat | j < |net.latches| && LatchOk(net, j)
      ensures net.latches[j].data < |cur| && SourceReady(cur[net.latches[j].data], v[net.latches[j].bo], false)
      ensures v[net.latches[j].bo] == if run == [] then 0 else Prev(net, run)[net.latches[j].data]
    {
      LatchHeld(net, live, traces, run, infos, infos', cur, j);
      DataUnchanged(net, live, traces, run, infos, infos', cur, j);
    }
    assert LiveSettled(net, live, v);
    LiveRunGrows(net, live, traces, run, v);
  }

  // ----- pass 3: latches -----

  lemma {:induction false} LogicUntouched(net: Net, x: nat)
    requires WellFormed(net) && x < |net.kind| && net.kind[x] != LatchIn && net.kind[x] != Latch
      && net.kind[x] != LatchOut
    ensures Untouched(net, x, |net.latches|)
  {
    forall j | 0 <= j < |net.latches|
      ensures net.latches[j].bo != x
    {
      assert LatchOk(net, j);
    }
  }

  /** The latches are ready for the next cycle of the network as they read it. */
  lemma {:induction false} LatchesReady(net: Net, run: seq<Values>, cur: Infos, next: Infos)
    requires var seen := ReadThrough(net);
      && WellFormed(net) && WellFormed(seen) && Shaped(seen, run) && Evaluated(seen, run, cur)
      && next == SeqUpdate(net, cur, |net.latches|)
    ensures var seen := ReadThrough(net);
      forall j: nat {:trigger LatchOk(seen, j)} :: j < |seen.latches| && LatchOk(seen, j) ==>
        LatchReady(seen, ValuesOf(cur), false, next, j)
  {
    var seen := ReadThrough(net);
    forall j: nat | j < |seen.latches| && LatchOk(seen, j)
      ensures LatchReady(seen, ValuesOf(cur), false, next, j)
    {
      DataInRange(seen, j);
      LatchHolds(net, cur, |net.latches|, j);
    }
  }

  /** Inputs and logic keep the records they had. */
  lemma {:induction false} OthersKept(net: Net, cur: Infos, x: nat)
    requires WellFormed(net) && |cur| == |net.kind| && x < |cur|
    requires net.kind[x] != LatchIn && net.kind[x] != Latch && net.kind[x] != LatchOut
    ensures SeqUpdate(net, cur, |net.latches|)[x] == cur[x]
  {
    LogicUntouched(net, x);
    UntouchedKept(net, cur, |net.latches|, x);
  }

  /**
   * After the latches are updated, the next cycle may start: of the network in which each latch is driven
   * by the object it resolves to.
   */
  lemma {:induction false} AfterLatches(net: Net, live: seq<bool>, traces: seq<seq<int>>, run: seq<Values>,
                                        cur: Infos, next: Infos)
    requires var seen := ReadThrough(net);
      && WellFormed(net) && WellFormed(seen) && IsLiveMarking(seen, live) && LiveRun(seen, live, traces, run)
      && Shaped(seen, run) && Evaluated(seen, run, cur) && next == SeqUpdate(net, cur, |net.latches|)
    ensures Between(ReadThrough(net), live, run, next)
  {
    var v, seen := ValuesOf(cur), ReadThrough(net);
    assert LiveCycle(seen, live, traces, run, |run| - 1);
    LatchesReady(net, run, cur, next);
    forall x: nat | x < |next| && seen.kind[x] == PrimaryIn
      ensures next[x] == cur[x]
    {
      OthersKept(net, cur, x);
    }
    forall k: nat | k < |seen.order| && ItemOk(seen, k) && IsLogic(seen, seen.order[k])
      ensures LogicReady(seen, live, run, next, k)
    {
      OthersKept(net, cur, seen.order[k]);
      assert LiveGate(seen, live, v, k);
      FaninsReady(seen, k);
    }
  }

  // ----- what the latches count -----

  function WriterOf(net: Net, x: nat): (j: nat)
    requires WellFormed(net) && x < |net.kind| && net.kind[x] == LatchOut
    ensures j < |net.latches| && net.latches[j].bo == x
  {
    EarlierWriter(net, x, |net.latches|)
  }

  /** A latch has the counts of its data object, and behind another latch those of the cycle before. */
  ghost predicate LatchCounted(net: Net, run: seq<Values>, i: Info, j: nat)
    requires WellFormed(net) && Shaped(net, run) && j < |net.latches|
    decreases |run|
  {
    DataInRange(net, j);
    var d := net.latches[j].data;
    if run == [] then i.ones == 0 && i.toggles == 0
    else if net.kind[d] == LatchOut then LatchCounted(net, run[..|run| - 1], i, WriterOf(net, d))
    else Counted(net, run, i, d)
  }

  ghost predicate LatchRecords(net: Net, run: seq<Values>, infos: Infos, j: nat)
    requires WellFormed(net) && Shaped(net, run) && j < |net.latches| && LatchOk(net, j) && |infos| == |net.kind|
  {
    var l := net.latches[j];
    && LatchCounted(net, run, infos[l.bi], j) && LatchCounted(net, run, infos[l.box], j)
    && LatchCounted(net, run, infos[l.bo], j)
  }

  ghost predicate LatchesCounted(net: Net, run: seq<Values>, infos: Infos)
    requires WellFormed(net) && Shaped(net, run) && |infos| == |net.kind|
  {
    forall j: nat {:trigger LatchOk(net, j)} :: j < |net.latches| && LatchOk(net, j) ==>
      LatchRecords(net, run, infos, j)
  }

  /** The record a latch takes over is counted once more. */
  lemma {:induction false} LatchCountsGoOn(net: Net, run: seq<Values>, run': seq<Values>, cur: Infos, next: Infos,
                                           j: nat)
    requires var seen := ReadThrough(net);
      && WellFormed(net) && WellFormed(seen) && Shaped(seen, run) && Shaped(seen, run') && Evaluated(seen, run', cur)
      && run' != [] && run'[..|run'| - 1] == run && LatchesCounted(seen, run, cur)
    requires next == SeqUpdate(net, cur, |net.latches|)
    requires j < |ReadThrough(net).latches| && LatchOk(ReadThrough(net), j)
    ensures LatchRecords(ReadThrough(net), run', next, j)
  {
    var seen := ReadThrough(net);
    var d := seen.latches[j].data;
    DataInRange(seen, j);
    LatchHolds(net, cur, |net.latches|, j);
    assert LatchCopied(net, cur, next, j);
    if seen.kind[d] == LatchOut {
      var m := WriterOf(seen, d);
      assert LatchOk(seen, m);
      assert LatchRecords(seen, run, cur, m);
    } else if seen.kind[d] != PrimaryIn {
      assert ReadyBefore(seen, |seen.order|, d);
      var k: nat :| k < |seen.order| && seen.order[k] == d;
      assert ItemOk(seen, k);
    }
  }

  lemma {:induction false} LatchesGoOn(net: Net, run: seq<Values>, run': seq<Values>, cur: Infos, next: Infos)
    requires var seen := ReadThrough(net);
      && WellFormed(net) && WellFormed(seen) && Shaped(seen, run) && Shaped(seen, run') && Evaluated(seen, run', cur)
      && run' != [] && run'[..|run'| - 1] == run && LatchesCounted(seen, run, cur)
    requires next == SeqUpdate(net, cur, |net.latches|)
    ensures LatchesCounted(ReadThrough(net), run', next)
  {
    var seen := ReadThrough(net);
    forall j: nat | j < |seen.latches| && LatchOk(seen, j)
      ensures LatchRecords(seen, run', next, j)
    {
      LatchCountsGoOn(net, run, run', cur, next, j);
    }
  }

  /** Reading inputs and evaluating logic leaves the records of the latches alone. */
  lemma {:induction false} LatchesKept(net: Net, run: seq<Values>, infos: Infos, cur: Infos)
    requires WellFormed(net) && Shaped(net, run) && |infos| == |cur| == |net.kind| && LatchesCounted(net, run, infos)
    requires forall x: nat ::
      x < |cur| && (net.kind[x] == LatchIn || net.kind[x] == Latch || net.kind[x] == LatchOut) ==>
      cur[x] == infos[x]
    ensures LatchesCounted(net, run, cur)
  {
    forall j: nat | j < |net.latches| && LatchOk(net, j)
      ensures LatchRecords(net, run, cur, j)
    {
      assert LatchRecords(net, run, infos, j);
    }
  }

  // ----- against the reference -----

  lemma {:induction false} DeadGateIsZero(net: Net, live: seq<bool>, v: Values, k: nat)
    requires WellFormed(net) && IsLiveMarking(net, live) && LiveSettled(net, live, v)
    requires k < |net.order| && IsLogic(net, net.order[k]) && !live[net.order[k]]
    requires FaninsIn(net, net.order[k], |v|)
      && (net.kind[net.order[k]] == PrimaryOut ==> |net.fanins[net.order[k]]| >= 1)
    ensures v[net.order[k]] == 0
    ensures Gate(net, net.order[k], v) == 0 <==> DeadIsZero(net, net.order[k], live)
  {
    var x := net.order[k];
    assert ItemOk(net, k) && LiveGate(net, live, v, k);
    forall i | 0 <= i < |net.fanins[x]|
      ensures v[net.fanins[x][i]] == 0
    {
      var f := net.fanins[x][i];
      assert !live[f];
      assert ReadyBefore(net, k, f);
      var j: nat :| j < k && net.order[j] == f;
      assert ItemOk(net, j) && LiveGate(net, live, v, j);
    }
    assert FaninValues(net.fanins[x], v) == seq(|net.fanins[x]|, _ => 0);
  }

  lemma {:induction false} LiveSettledIsSettled(net: Net, live: seq<bool>, v: Values)
    requires WellFormed(net) && IsLiveMarking(net, live) && LiveSettled(net, live, v)
    ensures Settled(net, v) <==> DeadAreZero(net, live)
  {
    forall k: nat | k < |net.order| && ItemOk(net, k)
      ensures GateHolds(net, k, v) <==> DeadIsZero(net, net.order[k], live)
    {
      if IsLogic(net, net.order[k]) {
        FaninsReady(net, k);
        assert LiveGate(net, live, v, k);
        if !live[net.order[k]] {
          DeadGateIsZero(net, live, v, k);
        }
      }
    }
    if DeadAreZero(net, live) {
      forall k: nat | k < |net.order|
        ensures GateHolds(net, k, v)
      {
        assert ItemOk(net, k);
      }
    } else {
      var k: nat :| k < |net.order| && ItemOk(net, k) && !DeadIsZero(net, net.order[k], live);
      assert !GateHolds(net, k, v);
    }
  }

  /**
   * The simulated values are a run of the network exactly when every object without a live fanin
   * computes 0 from zeros.
   */
  lemma {:induction false} LiveRunIsRun(net: Net, live: seq<bool>, traces: seq<seq<int>>, run: seq<Values>)
    requires WellFormed(net) && IsLiveMarking(net, live) && LiveRun(net, live, traces, run) && run != []
    ensures IsRun(net, traces, run) <==> DeadAreZero(net, live)
  {
    forall t: nat | t < |run|
      ensures CycleOk(net, traces, run, t) <==> DeadAreZero(net, live)
    {
      assert LiveCycle(net, live, traces, run, t);
      LiveSettledIsSettled(net, live, run[t]);
    }
    assert CycleOk(net, traces, run, 0) <==> DeadAreZero(net, live);
  }

  /** Two runs with the same inputs have the same columns. */
  lemma {:induction false} SameColumns(net: Net, traces: seq<seq<int>>, run: seq<Values>, run': seq<Values>, x: nat)
    requires WellFormed(net) && IsRun(net, traces, run) && IsRun(net, traces, run') && |run| == |run'| && Known(net, x)
    ensures x < |net.kind| && Column(run, x) == Column(run', x)
  {
    forall t | 0 <= t < |run|
      ensures run[t][x] == run'[t][x]
    {
      RunsAgree(net, traces, run, run', t, x);
    }
  }

  // ----- all values are bits -----

  ghost predicate IsBit(v: int) {
    v == 0 || v == 1
  }

  ghost predicate SourcesAreBits(net: Net, v: Values)
    requires |v| == |net.kind|
  {
    forall x: nat :: x < |v| && IsSource(net, x) ==> IsBit(v[x])
  }

  lemma {:induction false} SettledBits(net: Net, live: seq<bool>, v: Values, k: nat)
    requires WellFormed(net) && |live| == |net.kind| && LiveSettled(net, live, v) && SourcesAreBits(net, v)
      && k <= |net.order|
    ensures forall j :: 0 <= j < k ==> net.order[j] < |v| && IsBit(v[net.order[j]])
  {
    if k > 0 {
      SettledBits(net, live, v, k - 1);
      assert ItemOk(net, k - 1);
      var x := net.order[k - 1];
      if IsLogic(net, x) {
        assert LiveGate(net, live, v, k - 1);
        if net.kind[x] == PrimaryOut {
          assert ReadyBefore(net, k - 1, net.fanins[x][0]);
        }
      }
    }
  }

  lemma {:induction false} RunBits(net: Net, live: seq<bool>, traces: seq<seq<int>>, run: seq<Values>, t: nat, x: nat)
    requires WellFormed(net) && |live| == |net.kind| && LiveRun(net, live, traces, run) && TracesOk(net, traces, |run|)
    requires t < |run| && Known(net, x)
    ensures IsBit(run[t][x])
    decreases t
  {
    assert LiveCycle(net, live, traces, run, t);
    forall y: nat | y < |net.kind| && IsSource(net, y)
      ensures IsBit(run[t][y])
    {
      if net.kind[y] == LatchOut {
        var j: nat :| j < |net.latches| && net.latches[j].bo == y;
        assert LatchOk(net, j);
        if t > 0 {
          DataIsKnown(net, j);
          RunBits(net, live, traces, run, t - 1, net.latches[j].data);
        }
      }
    }
    SettledBits(net, live, run[t], |net.order|);
    if !IsSource(net, x) {
      var k :| 0 <= k < |net.order| && net.order[k] == x;
    }
  }

  // ----- an object no source reaches -----

  /** A constant 1: its fanin list is empty, so it is never evaluated and stays 0. */
  lemma {:induction false} ConstantOneStaysZero() returns (net: Net)
    ensures WellFormed(net) && IsLogic(net, 0) && 0 in net.order && !DeadAreZero(net, LiveMarks(net, |net.order|))
  {
    net := Net([Logic], [[]], [values => true], [0], []);
    assert ItemOk(net, 0);
    MarksAreLive(net);
    var live := LiveMarks(net, 1);
    assert !SomeFaninLive(net, 0, live);
    assert !live[net.order[0]];
    assert !DeadIsZero(net, net.order[0], live);
  }
}
