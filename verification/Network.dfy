/** Logic networks with latches, and what a cycle-accurate run of one is. */
module Network {

  datatype Kind = PrimaryIn | PrimaryOut | LatchIn | Latch | LatchOut | Logic

  /** A latch box: its input, box and output objects, and the object that drives its input. */
  datatype LatchBox = LatchBox(bi: nat, box: nat, bo: nat, data: nat)

  /** Objects are numbered; order lists the objects to evaluate, fanins before fanouts. */
  datatype Net = Net(
    kind: seq<Kind>,
    fanins: seq<seq<nat>>,
    func: seq<seq<int> -> bool>,
    order: seq<nat>,
    latches: seq<LatchBox>)

  type Values = seq<int>

  function Bit(b: bool): int {
    if b then 1 else 0
  }

  predicate IsSource(net: Net, x: nat) {
    x < |net.kind| && (net.kind[x] == PrimaryIn || net.kind[x] == LatchOut)
  }

  predicate IsLogic(net: Net, x: nat) {
    x < |net.kind| && (net.kind[x] == Logic || net.kind[x] == PrimaryOut)
  }

  /** Fanin f is a source or is evaluated among the first k objects of the order. */
  predicate ReadyBefore(net: Net, k: nat, f: nat)
    requires k <= |net.order|
  {
    IsSource(net, f) || (IsLogic(net, f) && f in net.order[..k])
  }

  ghost predicate ItemOk(net: Net, k: nat)
    requires k < |net.order| && |net.fanins| == |net.kind|
  {
    var x := net.order[k];
    && x < |net.kind|
    && (IsSource(net, x) || IsLogic(net, x))
    && x !in net.order[..k]
    && (net.kind[x] == PrimaryOut ==> |net.fanins[x]| >= 1)
    && (IsLogic(net, x) ==> forall i :: 0 <= i < |net.fanins[x]| ==> ReadyBefore(net, k, net.fanins[x][i]))
  }

  /** Latch j of the network uses its own three objects, and something evaluated drives it. */
  ghost predicate LatchOk(net: Net, j: nat)
    requires j < |net.latches|
  {
    var l := net.latches[j];
    && l.bi < |net.kind| && l.box < |net.kind| && l.bo < |net.kind|
    && net.kind[l.bi] == LatchIn && net.kind[l.box] == Latch && net.kind[l.bo] == LatchOut
    && ReadyBefore(net, |net.order|, l.data)
    && forall i :: 0 <= i < j ==> net.latches[i].bo != l.bo && net.latches[i].bi != l.bi && net.latches[i].box != l.box
  }

  ghost predicate WellFormed(net: Net) {
    && |net.fanins| == |net.func| == |net.kind|
    && (forall k: nat {:trigger ItemOk(net, k)} :: k < |net.order| ==> ItemOk(net, k))
    && (forall j: nat {:trigger LatchOk(net, j)} :: j < |net.latches| ==> LatchOk(net, j))
    && (forall x: nat :: x < |net.kind| && net.kind[x] == LatchOut ==>
          exists j :: 0 <= j < |net.latches| && net.latches[j].bo == x)
  }

  function FaninValues(fanins: seq<nat>, v: Values): (r: seq<int>)
    requires forall i :: 0 <= i < |fanins| ==> fanins[i] < |v|
    ensures |r| == |fanins|
  {
    seq(|fanins|, (i: nat) requires i < |fanins| => v[fanins[i]])
  }

  ghost predicate FaninsIn(net: Net, x: nat, n: nat) {
    x < |net.fanins| && forall i :: 0 <= i < |net.fanins[x]| ==> net.fanins[x][i] < n
  }

  /** The value object x should have, given the values of its fanins. */
  function Gate(net: Net, x: nat, v: Values): int
    requires x < |net.kind| == |net.fanins| == |net.func| && FaninsIn(net, x, |v|)
    requires net.kind[x] == PrimaryOut ==> |net.fanins[x]| >= 1
  {
    if net.kind[x] == PrimaryOut then v[net.fanins[x][0]] else Bit(net.func[x](FaninValues(net.fanins[x], v)))
  }

  lemma {:induction false} FaninsReady(net: Net, k: nat)
    requires WellFormed(net) && k < |net.order| && IsLogic(net, net.order[k])
    ensures FaninsIn(net, net.order[k], |net.kind|)
    ensures net.kind[net.order[k]] == PrimaryOut ==> |net.fanins[net.order[k]]| >= 1
  {
    assert ItemOk(net, k);
  }

  ghost predicate GateHolds(net: Net, k: nat, v: Values)
    requires WellFormed(net) && k < |net.order| && |v| == |net.kind|
  {
    var x := net.order[k];
    assert ItemOk(net, k);
    IsLogic(net, x) ==> v[x] == Gate(net, x, v)
  }

  /** Full re-evaluation would change nothing. */
  ghost predicate Settled(net: Net, v: Values)
    requires WellFormed(net)
  {
    |v| == |net.kind| && forall k: nat {:trigger GateHolds(net, k, v)} :: k < |net.order| ==> GateHolds(net, k, v)
  }

  ghost predicate RunShape(net: Net, traces: seq<seq<int>>, run: seq<Values>) {
    && |traces| == |net.kind|
    && (forall x :: 0 <= x < |traces| && net.kind[x] == PrimaryIn ==> |traces[x]| >= |run|)
    && forall t :: 0 <= t < |run| ==> |run[t]| == |net.kind|
  }

  ghost predicate InputsFollow(net: Net, traces: seq<seq<int>>, v: Values, t: nat)
    requires |traces| == |net.kind| == |v|
    requires forall x :: 0 <= x < |traces| && net.kind[x] == PrimaryIn ==> t < |traces[x]|
  {
    forall x: nat :: x < |net.kind| && net.kind[x] == PrimaryIn ==> v[x] == traces[x][t]
  }

  ghost predicate LatchesFollow(net: Net, run: seq<Values>, t: nat)
    requires WellFormed(net) && t < |run| && forall i :: 0 <= i < |run| ==> |run[i]| == |net.kind|
  {
    forall j: nat {:trigger LatchOk(net, j)} :: j < |net.latches| && LatchOk(net, j) ==>
      run[t][net.latches[j].bo] == if t == 0 then 0 else run[t - 1][net.latches[j].data]
  }

  /** Cycle t is settled, agrees with its inputs, and its latch outputs hold what their inputs held before. */
  ghost predicate CycleOk(net: Net, traces: seq<seq<int>>, run: seq<Values>, t: nat)
    requires WellFormed(net) && RunShape(net, traces, run) && t < |run|
  {
    && Settled(net, run[t])
    && InputsFollow(net, traces, run[t], t)
    && LatchesFollow(net, run, t)
  }

  /** A run: every cycle is settled under its inputs, and latches pass values to the next cycle. */
  ghost predicate IsRun(net: Net, traces: seq<seq<int>>, run: seq<Values>)
    requires WellFormed(net)
  {
    && RunShape(net, traces, run)
    && forall t: nat {:trigger CycleOk(net, traces, run, t)} :: t < |run| ==> CycleOk(net, traces, run, t)
  }

  // ----- objects no source reaches -----

  ghost predicate SomeFaninLive(net: Net, x: nat, live: seq<bool>)
    requires x < |net.fanins|
  {
    exists i :: 0 <= i < |net.fanins[x]| && net.fanins[x][i] < |live| && live[net.fanins[x][i]]
  }

  /** live marks the sources and every object with a live fanin. */
  ghost predicate IsLiveMarking(net: Net, live: seq<bool>)
    requires WellFormed(net)
  {
    && |live| == |net.kind|
    && (forall x :: 0 <= x < |live| && IsSource(net, x) ==> live[x])
    && forall k: nat {:trigger ItemOk(net, k)} :: k < |net.order| && ItemOk(net, k) && IsLogic(net, net.order[k]) ==>
      (live[net.order[k]] <==> SomeFaninLive(net, net.order[k], live))
  }

  function LiveMarks(net: Net, k: nat): (live: seq<bool>)
    requires k <= |net.order| && |net.fanins| == |net.kind|
    ensures |live| == |net.kind|
  {
    if k == 0 then seq(|net.kind|, (x: nat) => IsSource(net, x))
    else
      var live, x := LiveMarks(net, k - 1), net.order[k - 1];
      if IsLogic(net, x) then
        live[x := exists i :: 0 <= i < |net.fanins[x]| && net.fanins[x][i] < |live| && live[net.fanins[x][i]]]
      else live
  }

  ghost predicate DeadIsZero(net: Net, x: nat, live: seq<bool>)
    requires x < |net.kind| == |net.fanins| == |net.func| == |live|
  {
    net.kind[x] == Logic && !live[x] ==> !net.func[x](seq(|net.fanins[x]|, _ => 0))
  }

  /** Every object that no source reaches computes 0 from zeros. */
  ghost predicate DeadAreZero(net: Net, live: seq<bool>)
    requires WellFormed(net) && |live| == |net.kind|
  {
    forall k: nat {:trigger ItemOk(net, k)} :: k < |net.order| && ItemOk(net, k) ==> DeadIsZero(net, net.order[k], live)
  }

  /** Later steps do not touch the mark of an object already in place. */
  lemma {:induction false} MarkStays(net: Net, j: nat, k: nat, f: nat)
    requires WellFormed(net) && j <= k <= |net.order| && f < |net.kind|
    requires IsSource(net, f) || f in net.order[..j]
    ensures LiveMarks(net, k)[f] == LiveMarks(net, j)[f]
  {
    if j < k {
      assert ItemOk(net, k - 1);
      MarkStays(net, j, k - 1, f);
      var i :| IsSource(net, f) || (0 <= i < j && net.order[i] == f);
      assert !IsSource(net, f) ==> net.order[..k - 1][i] == f;
    }
  }

  lemma {:induction false} MarksAreLive(net: Net)
    requires WellFormed(net)
    ensures IsLiveMarking(net, LiveMarks(net, |net.order|))
  {
    var n := |net.order|;
    var live := LiveMarks(net, n);
    forall x | 0 <= x < |live| && IsSource(net, x)
      ensures live[x]
    {
      MarkStays(net, 0, n, x);
    }
    forall k: nat | k < n && ItemOk(net, k) && IsLogic(net, net.order[k])
      ensures live[net.order[k]] <==> SomeFaninLive(net, net.order[k], live)
    {
      var x, before := net.order[k], LiveMarks(net, k);
      assert net.order[..k + 1][k] == x;
      MarkStays(net, k + 1, n, x);
      forall i | 0 <= i < |net.fanins[x]|
        ensures net.fanins[x][i] < |live| && live[net.fanins[x][i]] == before[net.fanins[x][i]]
      {
        MarkStays(net, k, n, net.fanins[x][i]);
      }
    }
  }

  // ----- the reference: full re-evaluation -----

  lemma {:induction false} GateLocal(net: Net, x: nat, v: Values, v': Values)
    requires x < |net.kind| == |net.fanins| == |net.func| && FaninsIn(net, x, |v|) && |v| == |v'|
    requires net.kind[x] == PrimaryOut ==> |net.fanins[x]| >= 1
    requires forall i :: 0 <= i < |net.fanins[x]| ==> v[net.fanins[x][i]] == v'[net.fanins[x][i]]
    ensures Gate(net, x, v) == Gate(net, x, v')
  {
    assert FaninValues(net.fanins[x], v) == FaninValues(net.fanins[x], v');
  }

  /** The object at position k is not a fanin of one at an earlier position. */
  lemma {:induction false} LaterIsNoFanin(net: Net, j: nat, k: nat, i: nat)
    requires WellFormed(net) && j <= k < |net.order| && IsLogic(net, net.order[j]) && IsLogic(net, net.order[k])
    requires i < |net.fanins[net.order[j]]|
    ensures net.fanins[net.order[j]][i] < |net.kind| && net.fanins[net.order[j]][i] != net.order[k]
  {
    assert ItemOk(net, j) && ItemOk(net, k);
    var f := net.fanins[net.order[j]][i];
    assert ReadyBefore(net, j, f);
    if !IsSource(net, f) {
      var i' :| 0 <= i' < j && net.order[i'] == f;
      assert net.order[..k][i'] == f;
    }
  }

  /** Changing the object at position k keeps earlier gates. */
  lemma {:induction false} EarlierGateStays(net: Net, j: nat, k: nat, v: Values, v': Values)
    requires WellFormed(net) && j <= k < |net.order| && IsLogic(net, net.order[j]) && IsLogic(net, net.order[k])
    requires |v| == |v'| == |net.kind| && forall y: nat :: y < |v| && y != net.order[k] ==> v'[y] == v[y]
    requires FaninsIn(net, net.order[j], |net.kind|)
      && (net.kind[net.order[j]] == PrimaryOut ==> |net.fanins[net.order[j]]| >= 1)
    ensures Gate(net, net.order[j], v') == Gate(net, net.order[j], v)
  {
    forall i | 0 <= i < |net.fanins[net.order[j]]|
      ensures net.fanins[net.order[j]][i] != net.order[k]
    {
      LaterIsNoFanin(net, j, k, i);
    }
    GateLocal(net, net.order[j], v, v');
  }

  ghost function Settle(net: Net, v: Values, k: nat): (r: Values)
    requires WellFormed(net) && |v| == |net.kind| && k <= |net.order|
    ensures |r| == |v|
  {
    if k == 0 then v
    else
      var p, x := Settle(net, v, k - 1), net.order[k - 1];
      assert ItemOk(net, k - 1);
      if IsLogic(net, x) then
        FaninsReady(net, k - 1);
        p[x := Gate(net, x, p)]
      else p
  }

  lemma {:induction false} SettleHolds(net: Net, v: Values, k: nat)
    requires WellFormed(net) && |v| == |net.kind| && k <= |net.order|
    ensures forall j: nat {:trigger GateHolds(net, j, Settle(net, v, k))} :: j < k ==>
      GateHolds(net, j, Settle(net, v, k))
    ensures forall x: nat :: x < |v| && IsSource(net, x) ==> Settle(net, v, k)[x] == v[x]
  {
    if k > 0 {
      SettleHolds(net, v, k - 1);
      assert ItemOk(net, k - 1);
      var p, r, x := Settle(net, v, k - 1), Settle(net, v, k), net.order[k - 1];
      forall j: nat | j < k
        ensures GateHolds(net, j, r)
      {
        assert ItemOk(net, j);
        if IsLogic(net, x) && IsLogic(net, net.order[j]) {
          FaninsReady(net, j);
          EarlierGateStays(net, j, k - 1, p, r);
          if j < k - 1 {
            assert GateHolds(net, j, p);
            assert net.order[..k - 1][j] == net.order[j];
          }
        } else if j < k - 1 {
          assert GateHolds(net, j, p);
        }
      }
    }
  }

  ghost function LatchedValue(net: Net, prev: Values, x: nat): (v: int)
    requires WellFormed(net) && |prev| == |net.kind| && x < |net.kind| && net.kind[x] == LatchOut
    ensures exists j ::
      0 <= j < |net.latches| && net.latches[j].bo == x && net.latches[j].data < |prev| && v == prev[net.latches[j].data]
  {
    var j :| 0 <= j < |net.latches| && net.latches[j].bo == x;
    assert LatchOk(net, j);
    prev[net.latches[j].data]
  }

  /** The source values of cycle t: inputs from the traces, latch outputs from the previous cycle. */
  ghost function SourceValues(net: Net, traces: seq<seq<int>>, prev: Values, t: nat): (v: Values)
    requires WellFormed(net) && |traces| == |net.kind| == |prev|
    ensures |v| == |net.kind|
  {
    seq(|net.kind|, (x: nat) requires x < |net.kind| =>
      if net.kind[x] == PrimaryIn then (if t < |traces[x]| then traces[x][t] else 0)
      else if net.kind[x] == LatchOut && t > 0 then LatchedValue(net, prev, x)
      else 0)
  }

  ghost function FullRun(net: Net, traces: seq<seq<int>>, t: nat): (run: seq<Values>)
    requires WellFormed(net) && |traces| == |net.kind|
    ensures |run| == t && forall s :: 0 <= s < t ==> |run[s]| == |net.kind|
  {
    if t == 0 then []
    else
      var run := FullRun(net, traces, t - 1);
      var prev := if t == 1 then seq(|net.kind|, _ => 0) else run[t - 2];
      run + [Settle(net, SourceValues(net, traces, prev, t - 1), |net.order|)]
  }

  lemma {:induction false} LatchedIsData(net: Net, prev: Values, j: nat)
    requires WellFormed(net) && |prev| == |net.kind| && j < |net.latches| && LatchOk(net, j)
    ensures net.latches[j].data < |prev| && LatchedValue(net, prev, net.latches[j].bo) == prev[net.latches[j].data]
  {
    var x := net.latches[j].bo;
    var i :| 0 <= i < |net.latches| && net.latches[i].bo == x && net.latches[i].data < |prev|
      && LatchedValue(net, prev, x) == prev[net.latches[i].data];
    assert LatchOk(net, i);
  }

  lemma {:induction false} LastCycleOk(net: Net, traces: seq<seq<int>>, prev: Values, t: nat)
    requires WellFormed(net) && |traces| == |net.kind| == |prev|
    requires forall x :: 0 <= x < |traces| && net.kind[x] == PrimaryIn ==> t < |traces[x]|
    ensures var v := Settle(net, SourceValues(net, traces, prev, t), |net.order|);
      && Settled(net, v) && InputsFollow(net, traces, v, t)
      && forall j: nat {:trigger LatchOk(net, j)} :: j < |net.latches| && LatchOk(net, j) ==>
        net.latches[j].data < |prev| && v[net.latches[j].bo] == if t == 0 then 0 else prev[net.latches[j].data]
  {
    SettleHolds(net, SourceValues(net, traces, prev, t), |net.order|);
    forall j: nat | j < |net.latches| && LatchOk(net, j)
      ensures net.latches[j].data < |prev|
      ensures LatchedValue(net, prev, net.latches[j].bo) == prev[net.latches[j].data]
    {
      LatchedIsData(net, prev, j);
    }
  }

  /** A run with one more cycle, settled from its source values. */
  lemma {:induction false} RunGrows(net: Net, traces: seq<seq<int>>, before: seq<Values>, prev: Values, t: nat)
    requires WellFormed(net) && |traces| == |net.kind| == |prev| && |before| == t && IsRun(net, traces, before)
    requires forall x :: 0 <= x < |traces| && net.kind[x] == PrimaryIn ==> t < |traces[x]|
    requires t > 0 ==> prev == before[t - 1]
    ensures IsRun(net, traces, before + [Settle(net, SourceValues(net, traces, prev, t), |net.order|)])
  {
    var v := Settle(net, SourceValues(net, traces, prev, t), |net.order|);
    var run := before + [v];
    LastCycleOk(net, traces, prev, t);
    forall s: nat | s < |run|
      ensures CycleOk(net, traces, run, s)
    {
      if s < t {
        assert CycleOk(net, traces, before, s);
        assert run[s] == before[s] && (s > 0 ==> run[s - 1] == before[s - 1]);
      }
    }
  }

  /** Full re-evaluation of every cycle is a run, so runs exist for every network and every input. */
  lemma {:induction false} FullRunIsRun(net: Net, traces: seq<seq<int>>, t: nat)
    requires WellFormed(net) && |traces| == |net.kind|
    requires forall x :: 0 <= x < |traces| && net.kind[x] == PrimaryIn ==> |traces[x]| >= t
    ensures IsRun(net, traces, FullRun(net, traces, t))
  {
    if t > 0 {
      FullRunIsRun(net, traces, t - 1);
      var before := FullRun(net, traces, t - 1);
      RunGrows(net, traces, before, if t == 1 then seq(|net.kind|, _ => 0) else before[t - 2], t - 1);
    }
  }

  /** An object whose value a run determines. */
  ghost predicate Known(net: Net, x: nat) {
    IsSource(net, x) || (IsLogic(net, x) && x in net.order)
  }

  lemma {:induction false} SettledAgree(net: Net, v: Values, v': Values, k: nat)
    requires WellFormed(net) && Settled(net, v) && Settled(net, v') && k <= |net.order|
    requires forall x: nat :: x < |v| && IsSource(net, x) ==> v[x] == v'[x]
    ensures forall j :: 0 <= j < k ==> net.order[j] < |v| && v[net.order[j]] == v'[net.order[j]]
  {
    if k > 0 {
      SettledAgree(net, v, v', k - 1);
      var x := net.order[k - 1];
      assert ItemOk(net, k - 1);
      if IsLogic(net, x) {
        assert GateHolds(net, k - 1, v) && GateHolds(net, k - 1, v');
        forall i | 0 <= i < |net.fanins[x]|
          ensures v[net.fanins[x][i]] == v'[net.fanins[x][i]]
        {
          assert ReadyBefore(net, k - 1, net.fanins[x][i]);
        }
        GateLocal(net, x, v, v');
      }
    }
  }

  lemma {:induction false} DataIsKnown(net: Net, j: nat)
    requires WellFormed(net) && j < |net.latches|
    ensures Known(net, net.latches[j].data)
  {
    assert LatchOk(net, j);
    assert net.order[..|net.order|] == net.order;
  }

  /** Runs are deterministic: equal inputs give equal values everywhere, on every cycle. */
  lemma {:induction false} RunsAgree(net: Net, traces: seq<seq<int>>, run: seq<Values>, run': seq<Values>, t: nat,
                                     x: nat)
    requires WellFormed(net) && IsRun(net, traces, run) && IsRun(net, traces, run')
    requires t < |run| && t < |run'| && Known(net, x)
    ensures run[t][x] == run'[t][x]
    decreases t
  {
    assert CycleOk(net, traces, run, t) && CycleOk(net, traces, run', t);
    forall y: nat | y < |net.kind| && IsSource(net, y)
      ensures run[t][y] == run'[t][y]
    {
      if net.kind[y] == LatchOut {
        var j: nat :| j < |net.latches| && net.latches[j].bo == y;
        assert LatchOk(net, j);
        if t > 0 {
          DataIsKnown(net, j);
          RunsAgree(net, traces, run, run', t - 1, net.latches[j].data);
        }
      }
    }
    SettledAgree(net, run[t], run'[t], |net.order|);
    if !IsSource(net, x) {
      var j :| 0 <= j < |net.order| && net.order[j] == x;
    }
  }
}
