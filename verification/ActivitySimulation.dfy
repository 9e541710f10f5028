/** The activity simulation: objects with records that change cycle by cycle. */
module ActivitySimulation {
  import opened Wrappers
  import opened Network
  import opened Simulator
  import opened SimulatorCycle
  import opened SimulatorRun
  import opened ActivityBounds

  function StartInfos(kinds: seq<Kind>): (infos: seq<Info>)
    ensures |infos| == |kinds|
    ensures forall x :: 0 <= x < |infos| ==> infos[x] == Info(if kinds[x] == LatchOut then New else Undef, 0, 0, 0)
  {
    seq(|kinds|, x requires 0 <= x < |kinds| => Info(if kinds[x] == LatchOut then New else Undef, 0, 0, 0))
  }

  /** The records and the run agree between two cycles. */
  ghost predicate StateAfter(net: Net, traces: seq<seq<int>>, live: seq<bool>, run: seq<Values>, infos: Infos) {
    && WellFormed(net) && Shaped(net, run) && Between(net, live, run, infos)
    && LiveRun(net, live, traces, run) && LatchesCounted(net, run, infos)
    && forall i :: 0 <= i < |infos| ==> infos[i].status != Sim
  }

  lemma {:induction false} StartIsBetween(net: Net, live: seq<bool>)
    requires WellFormed(net) && IsLiveMarking(net, live)
    ensures Between(net, live, [], StartInfos(net.kind))
  {
    var infos := StartInfos(net.kind);
    forall j: nat | j < |net.latches| && LatchOk(net, j)
      ensures LatchReady(net, Prev(net, []), true, infos, j)
    {
    }
    forall k: nat | k < |net.order| && ItemOk(net, k) && IsLogic(net, net.order[k])
      ensures LogicReady(net, live, [], infos, k)
    {
      FaninsReady(net, k);
    }
  }

  lemma {:induction false} StartCounts(net: Net)
    requires WellFormed(net)
    ensures LatchesCounted(net, [], StartInfos(net.kind))
  {
  }

  lemma {:induction false} StartState(net: Net, traces: seq<seq<int>>, live: seq<bool>)
    requires WellFormed(net) && IsLiveMarking(net, live) && |traces| == |net.kind|
    ensures StateAfter(net, traces, live, [], StartInfos(net.kind))
  {
    StartIsBetween(net, live);
    StartCounts(net);
  }

  /** Primary inputs, and the logic objects that are evaluated. */
  ghost predicate Recorded(net: Net, x: nat)
    requires x < |net.kind|
  {
    net.kind[x] == PrimaryIn || (IsLogic(net, x) && x in net.order)
  }

  /** Inputs are read and logic is evaluated; the objects of the latches are neither. */
  lemma {:induction false} LatchesUntouched(net: Net, infos: Infos, read: Infos, cur: Infos)
    requires WellFormed(net) && |infos| == |read| == |cur| == |net.kind|
    requires forall x: nat :: x < |read| && net.kind[x] != PrimaryIn ==> read[x] == infos[x]
    requires forall x: nat :: x < |cur| && IsSource(net, x) ==> cur[x] == read[x]
    requires forall x: nat :: x < |cur| && x !in net.order ==> cur[x] == read[x]
    ensures forall x: nat ::
      x < |cur| && (net.kind[x] == LatchIn || net.kind[x] == Latch || net.kind[x] == LatchOut) ==>
      cur[x] == infos[x]
  {
    forall x: nat | x < |cur| && (net.kind[x] == LatchIn || net.kind[x] == Latch)
      ensures x !in net.order
    {
      forall k: nat | k < |net.order|
        ensures net.order[k] != x
      {
        assert ItemOk(net, k);
      }
    }
  }

  /** Whether the closing assertions pass for object x: for all but the spiky inputs. */
  ghost predicate PassesAtEnd(net: Net, run: seq<Values>, x: nat)
    requires Shaped(net, run) && run != [] && x < |net.kind|
  {
    var c := Column(run, x);
    net.kind[x] == PrimaryIn ==> !(Spiky(c) && c[|run| - 1] == 1 && |run| < 100000)
  }

  /** An object has the last value of the run and its counts, which then are those of the reference run. */
  ghost predicate RecordOutcome(net: Net, traces: seq<seq<int>>, run: seq<Values>, infos: Infos, x: nat)
    requires WellFormed(net) && RunShape(net, traces, run) && run != [] && x < |infos| == |net.kind|
  {
    && infos[x].value == run[|run| - 1][x] && Counted(net, run, infos[x], x)
    && (DeadAreZero(net, LiveMarks(net, |net.order|)) ==> Counted(net, FullRun(net, traces, |run|), infos[x], x))
    && (AssertionsHold(infos[x].ones, infos[x].toggles, |run|) <==> PassesAtEnd(net, run, x))
  }

  /**
   * A latch has the value and the counts it took over, and passes the closing assertions just when its
   * data object does.
   */
  ghost predicate LatchOutcome(net: Net, run: seq<Values>, infos: Infos, j: nat)
    requires WellFormed(net) && Shaped(net, run) && run != [] && j < |net.latches| && LatchOk(net, j)
      && |infos| == |net.kind|
  {
    DataInRange(net, j);
    var l, n := net.latches[j], |run|;
    && infos[l.bo].value == run[n - 1][l.data]
    && forall x :: x in {l.bi, l.box, l.bo} ==>
      && LatchCounted(net, run, infos[x], j)
      && (AssertionsHold(infos[x].ones, infos[x].toggles, n) <==> PassesAtEnd(net, run, l.data))
  }

  /**
   * The values gone through are those of re-evaluation with all objects out of reach of the sources at 0, and
   * those of full re-evaluation exactly when none of these computes a 1; every input, every evaluated object and
   * every latch ends as it should.
   */
  ghost predicate Simulated(net: Net, traces: seq<seq<int>>, run: seq<Values>, infos: Infos) {
    && WellFormed(net) && RunShape(net, traces, run) && run != [] && |infos| == |net.kind|
    && LiveRun(net, LiveMarks(net, |net.order|), traces, run)
    && (IsRun(net, traces, run) <==> DeadAreZero(net, LiveMarks(net, |net.order|)))
    && (forall x: nat :: x < |infos| && Recorded(net, x) ==> RecordOutcome(net, traces, run, infos, x))
    && (forall j: nat {:trigger LatchOk(net, j)} :: j < |net.latches| && LatchOk(net, j) ==>
          LatchOutcome(net, run, infos, j))
  }

  ghost predicate KnownAreBits(net: Net, run: seq<Values>)
    requires Shaped(net, run)
  {
    forall t: nat, x: nat :: t < |run| && x < |net.kind| && Known(net, x) ==> IsBit(run[t][x])
  }

  lemma {:induction false} LatchCountsBounded(net: Net, run: seq<Values>, i: Info, j: nat)
    requires WellFormed(net) && Shaped(net, run) && KnownAreBits(net, run) && j < |net.latches|
    requires LatchCounted(net, run, i, j)
    ensures CountsBounded(i.ones, i.toggles, |run|)
    decreases |run|
  {
    DataInRange(net, j);
    DataIsKnown(net, j);
    var d := net.latches[j].data;
    if run != [] {
      if net.kind[d] == LatchOut {
        var m := WriterOf(net, d);
        LatchCountsBounded(net, run[..|run| - 1], i, m);
      } else {
        forall t: nat | t < |run|
          ensures IsBit(Column(run, d)[t])
        {
          assert Known(net, d);
        }
        SignalCountsBounded(Column(run, d), net.kind[d] == PrimaryIn);
      }
    }
  }

  lemma {:induction false} BetweenAt(net: Net, live: seq<bool>, run: seq<Values>, infos: Infos, x: nat)
    requires Shaped(net, run) && run != [] && Between(net, live, run, infos)
    requires x < |infos| && (net.kind[x] == PrimaryIn || (IsLogic(net, x) && x in net.order))
    ensures infos[x].value == run[|run| - 1][x] && Counted(net, run, infos[x], x)
  {
    if net.kind[x] != PrimaryIn {
      var k: nat :| k < |net.order| && net.order[k] == x;
      assert ItemOk(net, k) && LogicReady(net, live, run, infos, k);
    }
  }

  /** Counts taken over a run pass the final assertions, except for the spiky inputs. */
  lemma {:induction false} ColumnAssertions(net: Net, live: seq<bool>, traces: seq<seq<int>>, run: seq<Values>,
                                            i: Info, x: nat)
    requires WellFormed(net) && |live| == |net.kind| && LiveRun(net, live, traces, run) && TracesOk(net, traces, |run|)
    requires Shaped(net, run) && run != [] && Known(net, x) && Counted(net, run, i, x)
    ensures var c := Column(run, x);
      AssertionsHold(i.ones, i.toggles, |run|) <==>
        !(net.kind[x] == PrimaryIn && Spiky(c) && c[|run| - 1] == 1 && |run| < 100000)
  {
    var c := Column(run, x);
    forall t: nat | t < |run|
      ensures IsBit(c[t])
    {
      RunBits(net, live, traces, run, t, x);
    }
    if net.kind[x] == PrimaryIn {
      PiAssertionsHold(c);
    } else {
      LogicAssertionsHold(c);
    }
  }

  lemma {:induction false} LatchAssertions(net: Net, live: seq<bool>, traces: seq<seq<int>>, run: seq<Values>,
                                           i: Info, j: nat)
    requires WellFormed(net) && |live| == |net.kind| && LiveRun(net, live, traces, run) && TracesOk(net, traces, |run|)
    requires Shaped(net, run) && run != [] && KnownAreBits(net, run) && j < |net.latches|
      && LatchCounted(net, run, i, j)
    ensures net.latches[j].data < |net.kind|
    ensures AssertionsHold(i.ones, i.toggles, |run|) <==> PassesAtEnd(net, run, net.latches[j].data)
  {
    DataInRange(net, j);
    DataIsKnown(net, j);
    var d := net.latches[j].data;
    if net.kind[d] == LatchOut {
      LatchCountsBounded(net, run[..|run| - 1], i, WriterOf(net, d));
      DelayedAssertionsHold(i.ones, i.toggles, |run|);
    } else {
      ColumnAssertions(net, live, traces, run, i, d);
    }
  }

  lemma {:induction false} FinalLatch(net: Net, live: seq<bool>, traces: seq<seq<int>>, run: seq<Values>,
                                      infos: Infos, j: nat)
    requires WellFormed(net) && |live| == |net.kind| && LiveRun(net, live, traces, run) && TracesOk(net, traces, |run|)
    requires Shaped(net, run) && run != [] && Between(net, live, run, infos) && LatchesCounted(net, run, infos)
    requires j < |net.latches| && LatchOk(net, j)
    ensures LatchOutcome(net, run, infos, j)
  {
    forall t: nat, x: nat | t < |run| && x < |net.kind| && Known(net, x)
      ensures IsBit(run[t][x])
    {
      RunBits(net, live, traces, run, t, x);
    }
    DataInRange(net, j);
    var l := net.latches[j];
    assert LatchReady(net, Prev(net, run), false, infos, j);
    assert LatchRecords(net, run, infos, j);
    forall x | x in {l.bi, l.box, l.bo}
      ensures LatchCounted(net, run, infos[x], j)
      ensures AssertionsHold(infos[x].ones, infos[x].toggles, |run|) <==> PassesAtEnd(net, run, l.data)
    {
      LatchAssertions(net, live, traces, run, infos[x], j);
    }
  }

  lemma {:induction false} FinalCounts(net: Net, live: seq<bool>, traces: seq<seq<int>>, run: seq<Values>,
                                       infos: Infos, x: nat)
    requires WellFormed(net) && live == LiveMarks(net, |net.order|) && LiveRun(net, live, traces, run)
      && TracesOk(net, traces, |run|)
    requires Shaped(net, run) && run != [] && Between(net, live, run, infos)
    requires x < |infos| && (net.kind[x] == PrimaryIn || (IsLogic(net, x) && x in net.order))
    ensures infos[x].value == run[|run| - 1][x] && Counted(net, run, infos[x], x)
    ensures DeadAreZero(net, live) ==> Counted(net, FullRun(net, traces, |run|), infos[x], x)
    ensures AssertionsHold(infos[x].ones, infos[x].toggles, |run|) <==> PassesAtEnd(net, run, x)
  {
    MarksAreLive(net);
    LiveRunIsRun(net, live, traces, run);
    FullRunIsRun(net, traces, |run|);
    BetweenAt(net, live, run, infos, x);
    ColumnAssertions(net, live, traces, run, infos[x], x);
    if DeadAreZero(net, live) {
      SameColumns(net, traces, run, FullRun(net, traces, |run|), x);
    }
  }

  lemma {:induction false} SimulationEnds(net: Net, traces: seq<seq<int>>, run: seq<Values>, infos: Infos)
    requires WellFormed(net) && run != [] && StateAfter(net, traces, LiveMarks(net, |net.order|), run, infos)
    requires TracesOk(net, traces, |run|)
    ensures Simulated(net, traces, run, infos)
  {
    var live := LiveMarks(net, |net.order|);
    MarksAreLive(net);
    LiveRunIsRun(net, live, traces, run);
    forall x: nat | x < |infos| && Recorded(net, x)
      ensures RecordOutcome(net, traces, run, infos, x)
    {
      FinalCounts(net, live, traces, run, infos, x);
    }
    forall j: nat | j < |net.latches| && LatchOk(net, j)
      ensures LatchOutcome(net, run, infos, j)
    {
      FinalLatch(net, live, traces, run, infos, j);
    }
  }

  lemma {:induction false} NoSim(net: Net, infos: Infos, k: nat)
    requires k <= |net.latches| && forall i :: 0 <= i < |infos| ==> infos[i].status != Sim
    ensures forall i :: 0 <= i < |infos| ==> SeqUpdate(net, infos, k)[i].status != Sim
  {
    if k > 0 {
      NoSim(net, infos, k - 1);
    }
  }

  class Simulation {
    const net: Net
    const info: array<Info>

    ghost predicate Valid()
      reads this
    {
      WellFormed(net) && info.Length == |net.kind|
    }

    constructor (net: Net)
      requires WellFormed(net)
      ensures this.net == net && Valid() && fresh(info)
    {
      this.net := net;
      info := new Info[|net.kind|](_ => Info(Undef, 0, 0, 0));
    }

    method GetPiValues(traces: seq<seq<int>>, cycle: nat)
      requires Valid() && |traces| == |net.kind|
      requires forall x :: 0 <= x < |traces| && net.kind[x] == PrimaryIn ==> cycle < |traces[x]|
      modifies info
      ensures forall x :: 0 <= x < info.Length ==>
        info[x] == if net.kind[x] == PrimaryIn then PiInfo(old(info[x]), traces[x][cycle]) else old(info[x])
    {
      for x := 0 to info.Length
        invariant forall y :: 0 <= y < info.Length ==>
          info[y] == if y < x && net.kind[y] == PrimaryIn then PiInfo(old(info[y]), traces[y][cycle]) else old(info[y])
      {
        if net.kind[x] == PrimaryIn {
          var i := info[x];
          if i.status == Undef {
            i := i.(status := New);
            if traces[x][cycle] == 1 {
              i := i.(value := 1, toggles := 1, ones := 1);
            } else {
              i := i.(value := 0, toggles := 0, ones := 0);
            }
          } else if i.value == 0 {
            if traces[x][cycle] == 1 {
              i := i.(value := 1, status := New, toggles := i.toggles + 1, ones := i.ones + 1);
            } else {
              i := i.(status := Old);
            }
          } else {
            if traces[x][cycle] == 0 {
              i := i.(value := 0, status := New, toggles := i.toggles + 1);
            } else {
              i := i.(ones := i.ones + 1, status := Old);
            }
          }
          info[x] := i;
        }
      }
    }

    method GetFaninStatus(x: nat) returns (st: Status)
      requires Valid() && x < |net.kind| && FaninsIn(net, x, info.Length)
      ensures st == FaninStatus(net.fanins[x], info[..])
    {
      var fanins := net.fanins[x];
      var i := 0;
      while i < |fanins|
        invariant 0 <= i <= |fanins|
        invariant forall j :: 0 <= j < i ==> info[fanins[j]].status != Undef
      {
        if info[fanins[i]].status == Undef {
          return Undef;
        }
        i := i + 1;
      }
      i := 0;
      while i < |fanins|
        invariant 0 <= i <= |fanins|
        invariant forall j :: 0 <= j < i ==> info[fanins[j]].status != New && info[fanins[j]].status != Sim
      {
        if info[fanins[i]].status == New || info[fanins[i]].status == Sim {
          return New;
        }
        i := i + 1;
      }
      st := Old;
    }

    /** Collects the fanin values, unless no fanin is new; the source asserts that no fanin is undefined. */
    method GetFaninValues(x: nat) returns (r: Option<seq<int>>)
      requires Valid() && x < |net.kind| && FaninsIn(net, x, info.Length)
      requires forall i :: 0 <= i < |net.fanins[x]| ==> info[net.fanins[x][i]].status != Undef
      ensures r.Some? <==> exists i :: 0 <= i < |net.fanins[x]| && info[net.fanins[x][i]].status == New
      ensures r.Some? ==> r.value == FaninValues(net.fanins[x], ValuesOf(info[..]))
    {
      var fanins := net.fanins[x];
      var i := 0;
      while i < |fanins|
        invariant 0 <= i <= |fanins|
        invariant forall j :: 0 <= j < i ==> info[fanins[j]].status != New
      {
        assert info[fanins[i]].status != Undef;
        if info[fanins[i]].status == New {
          break;
        }
        i := i + 1;
      }
      if i >= |fanins| {
        return None;
      }
      var values: seq<int> := [];
      var j := 0;
      while j < |fanins|
        invariant 0 <= j <= |fanins| && |values| == j
        invariant forall k :: 0 <= k < j ==> values[k] == info[fanins[k]].value
      {
        values := values + [info[fanins[j]].value];
        j := j + 1;
      }
      r := Some(values);
    }

    /** Evaluates one logic object; the source asserts that a new fanin status yields fanin values. */
    method EvaluateObject(x: nat)
      requires Valid() && IsLogic(net, x) && FaninsIn(net, x, info.Length)
      requires net.kind[x] == PrimaryOut ==> |net.fanins[x]| >= 1
      requires forall i :: 0 <= i < info.Length ==> info[i].status != Sim
      modifies info
      ensures info[..] == old(info[..])[x := NextInfo(old(info[x]), FaninStatus(net.fanins[x], old(info[..])),
                                                      Gate(net, x, ValuesOf(old(info[..]))))]
    {
      var status := GetFaninStatus(x);
      var i := info[x];
      if status == Undef {
        i := i.(status := Undef);
      } else if status == Old {
        i := i.(status := Old, ones := i.ones + i.value);
      } else {
        var value;
        if net.kind[x] == Logic {
          var faninValues := GetFaninValues(x);
          assert faninValues.Some?;
          value := if net.func[x](faninValues.value) then 1 else 0;
        } else {
          value := info[net.fanins[x][0]].value;
        }
        if i.value != value || i.status == Undef {
          i := i.(value := value);
          if i.status != Undef {
            i := i.(toggles := i.toggles + 1);
          }
          i := i.(status := New);
        } else {
          i := i.(status := Old);
        }
        i := i.(ones := i.ones + i.value);
      }
      info[x] := i;
    }

    /** After each clock cycle every latch takes over the record of its data object. */
    method UpdateFFs()
      requires Valid()
      modifies info
      ensures info[..] == SeqUpdate(net, old(info[..]), |net.latches|)
    {
      var k := 0;
      while k < |net.latches|
        invariant 0 <= k <= |net.latches|
        invariant info[..] == SeqUpdate(net, old(info[..]), k)
      {
        assert LatchOk(net, k);
        DataInRange(net, k);
        var l := net.latches[k];
        var d := info[l.data];
        info[l.bi] := d;
        info[l.box] := d;
        info[l.bo] := d;
        k := k + 1;
      }
    }

    /** Evaluates the objects in order; only those with a new fanin are recomputed. */
    method EvaluateCircuit(ghost live: seq<bool>, ghost prev: Values, ghost first: bool)
      requires Valid() && Context(ReadThrough(net), live, prev, info[..])
      requires Progress(ReadThrough(net), live, prev, first, info[..], info[..], 0)
      requires forall i :: 0 <= i < info.Length ==> info[i].status != Sim
      modifies info
      ensures Progress(ReadThrough(net), live, prev, first, old(info[..]), info[..], |net.order|)
      ensures forall x: nat :: x < info.Length && x !in net.order ==> info[x] == old(info[x])
      ensures forall i :: 0 <= i < info.Length ==> info[i].status != Sim
    {
      ghost var seen, before := ReadThrough(net), info[..];
      var k := 0;
      while k < |net.order|
        invariant 0 <= k <= |net.order|
        invariant Progress(seen, live, prev, first, before, info[..], k)
        invariant forall x: nat :: x < info.Length && x !in net.order ==> info[x] == before[x]
        invariant forall i :: 0 <= i < info.Length ==> info[i].status != Sim
      {
        assert ItemOk(net, k);
        var x := net.order[k];
        ghost var cur := info[..];
        if net.kind[x] == PrimaryIn || net.kind[x] == LatchOut {
          SkipStep(seen, live, prev, first, before, cur, k);
        } else {
          FaninsReady(net, k);
          EvaluateObject(x);
          EvalStep(seen, live, prev, first, before, cur, k, info[..]);
        }
        k := k + 1;
      }
    }

    /** What holds between two cycles, of the network in which each latch is driven by the object it resolves to. */
    ghost predicate AfterCycles(traces: seq<seq<int>>, live: seq<bool>, run: seq<Values>)
      requires Valid()
      reads this, info
    {
      StateAfter(ReadThrough(net), traces, live, run, info[..])
    }

    /** The three passes of one clock cycle. */
    method SimulateCycle(traces: seq<seq<int>>, cycle: nat, ghost live: seq<bool>, ghost run: seq<Values>)
      returns (ghost run': seq<Values>)
      requires Valid() && AfterCycles(traces, live, run) && |run| == cycle && TracesOk(net, traces, cycle + 1)
      modifies info
      ensures |run'| == cycle + 1 && run'[..cycle] == run && AfterCycles(traces, live, run')
    {
      ghost var seen, infos := ReadThrough(net), info[..];
      GetPiValues(traces, cycle);
      ghost var read := info[..];
      assert InputsRead(seen, traces, infos, read, cycle);
      AfterInputs(seen, live, traces, run, infos, read);
      EvaluateCircuit(live, Prev(seen, run), run == []);
      ghost var cur := info[..];
      run' := run + [ValuesOf(cur)];
      AfterEvaluation(seen, live, traces, run, infos, read, cur);
      LatchesUntouched(seen, infos, read, cur);
      LatchesKept(seen, run, infos, cur);
      UpdateFFs();
      NoSim(net, cur, |net.latches|);
      AfterLatches(net, live, traces, run', cur, info[..]);
      LatchesGoOn(net, run, run', cur, info[..]);
    }

    /** Every record starts from 0; latch outputs start as New, everything else as Undef. */
    method Reset()
      requires info.Length == |net.kind|
      modifies info
      ensures info[..] == StartInfos(net.kind)
    {
      for x := 0 to info.Length
        invariant info[..x] == StartInfos(net.kind)[..x]
      {
        info[x] := Info(if net.kind[x] == LatchOut then New else Undef, 0, 0, 0);
      }
    }

    /** All cycles, from the reset state on. */
    method SimulateCycles(traces: seq<seq<int>>, maxCycles: nat) returns (ghost run: seq<Values>)
      requires Valid() && TracesOk(net, traces, maxCycles)
      modifies info
      ensures |run| == maxCycles && AfterCycles(traces, LiveMarks(ReadThrough(net), |net.order|), run)
    {
      ghost var seen := ReadThrough(net);
      ghost var live := LiveMarks(seen, |seen.order|);
      ReadThroughWellFormed(net);
      MarksAreLive(seen);
      Reset();
      StartState(seen, traces, live);
      run := [];
      var i := 0;
      while i < maxCycles
        invariant 0 <= i <= maxCycles && |run| == i
        invariant AfterCycles(traces, live, run)
      {
        run := SimulateCycle(traces, i, live, run);
        i := i + 1;
      }
    }

    /**
     * Simulates maxCycles clock cycles of the network as its latches read it, which is the network itself
     * when the latch order is safe.
     */
    method AceSimActivities(traces: seq<seq<int>>, maxCycles: nat) returns (ghost run: seq<Values>)
      requires Valid() && maxCycles > 0 && TracesOk(net, traces, maxCycles)
      modifies info
      ensures |run| == maxCycles && WellFormed(ReadThrough(net)) && (LatchOrderSafe(net) ==> ReadThrough(net) == net)
      ensures Simulated(ReadThrough(net), traces, run, info[..])
    {
      ghost var seen := ReadThrough(net);
      run := SimulateCycles(traces, maxCycles);
      ReadThroughIsNet(net);
      SimulationEnds(seen, traces, run, info[..]);
    }
  }
}
