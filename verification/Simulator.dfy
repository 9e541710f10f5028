/** The change-driven activity simulator. */
module Simulator {
  import opened Network

  datatype Status = Undef | Def | Sim | New | Old

  /** Activity record of one object. */
  datatype Info = Info(status: Status, value: int, ones: int, toggles: int)

  type Infos = seq<Info>

  function ValuesOf(infos: Infos): (v: Values)
    ensures |v| == |infos| && forall i :: 0 <= i < |v| ==> v[i] == infos[i].value
  {
    seq(|infos|, (i: nat) requires i < |infos| => infos[i].value)
  }

  // ----- what one object does in one cycle -----

  /** A primary input reads its next value; its first 1 counts as a toggle. */
  function PiInfo(i: Info, v: int): Info {
    if i.status == Undef then
      if v == 1 then Info(New, 1, 1, 1) else Info(New, 0, 0, 0)
    else if i.value == 0 then
      if v == 1 then Info(New, 1, i.ones + 1, i.toggles + 1) else i.(status := Old)
    else
      if v == 0 then Info(New, 0, i.ones, i.toggles + 1) else Info(Old, i.value, i.ones + 1, i.toggles)
  }

  ghost function FaninStatus(fanins: seq<nat>, infos: Infos): Status
    requires forall i :: 0 <= i < |fanins| ==> fanins[i] < |infos|
  {
    if exists i :: 0 <= i < |fanins| && infos[fanins[i]].status == Undef then Undef
    else if exists i :: 0 <= i < |fanins| && (infos[fanins[i]].status == New || infos[fanins[i]].status == Sim) then New
    else Old
  }

  /** The record after evaluation, when the fanin status is st and the gate computes v. */
  function NextInfo(i: Info, st: Status, v: int): Info {
    match st
    case Undef => i.(status := Undef)
    case New =>
      if i.value != v || i.status == Undef then
        Info(New, v, i.ones + v, if i.status != Undef then i.toggles + 1 else i.toggles)
      else Info(Old, i.value, i.ones + i.value, i.toggles)
    case _ => Info(Old, i.value, i.ones + i.value, i.toggles)
  }

  /** Latches copy the record of their data object in order, so a later latch may see an earlier copy. */
  function SeqUpdate(net: Net, infos: Infos, k: nat): (r: Infos)
    requires k <= |net.latches|
    ensures |r| == |infos|
  {
    if k == 0 then infos
    else
      var r, l := SeqUpdate(net, infos, k - 1), net.latches[k - 1];
      if l.data < |r| && l.bi < |r| && l.box < |r| && l.bo < |r| then
        r[l.bi := r[l.data]][l.box := r[l.data]][l.bo := r[l.data]]
      else r
  }

  lemma {:induction false} DataInRange(net: Net, j: nat)
    requires WellFormed(net) && j < |net.latches|
    ensures net.latches[j].data < |net.kind|
  {
    assert LatchOk(net, j);
  }

  // ----- the order in which latches are updated -----

  /** The last of the first k latches that writes object x, or -1. */
  function EarlierWriter(net: Net, x: nat, k: nat): (i: int)
    requires k <= |net.latches|
    ensures -1 <= i < k && (i >= 0 ==> net.latches[i].bo == x)
    ensures i < 0 ==> forall j :: 0 <= j < k ==> net.latches[j].bo != x
  {
    if k == 0 then -1
    else if net.latches[k - 1].bo == x then k - 1
    else EarlierWriter(net, x, k - 1)
  }

  /** The object whose record latch j really receives. */
  function Resolved(net: Net, j: nat): nat
    requires j < |net.latches|
  {
    var i := EarlierWriter(net, net.latches[j].data, j);
    if i < 0 then net.latches[j].data else Resolved(net, i)
  }

  /** Following the latches of the list that overwrote it, each latch's data leads back to the object itself. */
  ghost predicate LatchOrderSafe(net: Net) {
    forall j: nat :: j < |net.latches| ==> Resolved(net, j) == net.latches[j].data
  }

  ghost predicate LatchCopied(net: Net, infos: Infos, r: Infos, j: nat)
    requires |infos| == |r| && j < |net.latches|
  {
    var l := net.latches[j];
    && l.bi < |r| && l.box < |r| && l.bo < |r| && Resolved(net, j) < |r|
    && r[l.bi] == r[l.box] == r[l.bo] == infos[Resolved(net, j)]
  }

  /** Object x belongs to none of the first k latches. */
  ghost predicate Untouched(net: Net, x: nat, k: nat)
    requires x < |net.kind| && k <= |net.latches|
  {
    net.kind[x] != LatchIn && net.kind[x] != Latch && forall j :: 0 <= j < k ==> net.latches[j].bo != x
  }

  lemma {:induction false} ResolvedInRange(net: Net, j: nat)
    requires WellFormed(net) && j < |net.latches|
    ensures Resolved(net, j) < |net.kind|
  {
    DataInRange(net, j);
    var i := EarlierWriter(net, net.latches[j].data, j);
    if i >= 0 {
      ResolvedInRange(net, i);
    }
  }

  lemma {:induction false} UntouchedKept(net: Net, infos: Infos, k: nat, x: nat)
    requires WellFormed(net) && |infos| == |net.kind| && k <= |net.latches| && x < |infos| && Untouched(net, x, k)
    ensures SeqUpdate(net, infos, k)[x] == infos[x]
  {
    if k > 0 {
      assert LatchOk(net, k - 1);
      UntouchedKept(net, infos, k - 1, x);
    }
  }

  lemma {:induction false} DataIsNoLatchObject(net: Net, j: nat)
    requires WellFormed(net) && j < |net.latches| && EarlierWriter(net, net.latches[j].data, j) < 0
    ensures net.latches[j].data < |net.kind| && Untouched(net, net.latches[j].data, j)
  {
    assert LatchOk(net, j);
  }

  lemma {:induction false} CopyMade(net: Net, infos: Infos, j: nat)
    requires WellFormed(net) && |infos| == |net.kind| && j < |net.latches|
    requires net.latches[j].data < |infos| && Resolved(net, j) < |infos|
    requires SeqUpdate(net, infos, j)[net.latches[j].data] == infos[Resolved(net, j)]
    ensures LatchCopied(net, infos, SeqUpdate(net, infos, j + 1), j)
  {
    assert LatchOk(net, j);
  }

  lemma {:induction false} CopyStays(net: Net, infos: Infos, k: nat, j: nat)
    requires WellFormed(net) && |infos| == |net.kind| && j < k < |net.latches|
    requires LatchCopied(net, infos, SeqUpdate(net, infos, k), j)
    ensures LatchCopied(net, infos, SeqUpdate(net, infos, k + 1), j)
  {
    assert LatchOk(net, k) && LatchOk(net, j);
    DataInRange(net, k);
  }

  /** A latch that has been copied holds the record of the object it resolves to. */
  lemma {:induction false} LatchHolds(net: Net, infos: Infos, k: nat, j: nat)
    requires WellFormed(net) && |infos| == |net.kind| && j < k <= |net.latches|
    ensures LatchCopied(net, infos, SeqUpdate(net, infos, k), j)
    decreases k
  {
    if j < k - 1 {
      LatchHolds(net, infos, k - 1, j);
      CopyStays(net, infos, k - 1, j);
    } else {
      DataInRange(net, j);
      ResolvedInRange(net, j);
      var i := EarlierWriter(net, net.latches[j].data, j);
      if i >= 0 {
        LatchHolds(net, infos, j, i);
      } else {
        DataIsNoLatchObject(net, j);
        UntouchedKept(net, infos, j, net.latches[j].data);
      }
      CopyMade(net, infos, j);
    }
  }

  /**
   * What the sequential copies leave: every latch written holds the record of its resolved object, and
   * nothing else changes.
   */
  lemma {:induction false} SeqUpdateAt(net: Net, infos: Infos, k: nat)
    requires WellFormed(net) && |infos| == |net.kind| && k <= |net.latches|
    ensures forall j: nat {:trigger Resolved(net, j)} :: j < k ==> LatchCopied(net, infos, SeqUpdate(net, infos, k), j)
    ensures forall x: nat :: x < |infos| && Untouched(net, x, k) ==> SeqUpdate(net, infos, k)[x] == infos[x]
  {
    forall j: nat | j < k
      ensures LatchCopied(net, infos, SeqUpdate(net, infos, k), j)
    {
      LatchHolds(net, infos, k, j);
    }
    forall x: nat | x < |infos| && Untouched(net, x, k)
      ensures SeqUpdate(net, infos, k)[x] == infos[x]
    {
      UntouchedKept(net, infos, k, x);
    }
  }

  lemma {:induction false} LatchReceives(net: Net, infos: Infos, j: nat)
    requires WellFormed(net) && |infos| == |net.kind| && j < |net.latches|
    ensures net.latches[j].bo < |infos| && Resolved(net, j) < |infos|
    ensures SeqUpdate(net, infos, |net.latches|)[net.latches[j].bo] == infos[Resolved(net, j)]
  {
    LatchHolds(net, infos, |net.latches|, j);
  }

  /** Latch j ends up with the record its data object had before the update, whatever the records are. */
  ghost predicate LatchTakesData(net: Net, j: nat)
    requires WellFormed(net) && j < |net.latches|
  {
    forall infos: Infos :: |infos| == |net.kind| && net.latches[j].data < |infos| && net.latches[j].bo < |infos| ==>
      SeqUpdate(net, infos, |net.latches|)[net.latches[j].bo] == infos[net.latches[j].data]
  }

  /** Records of which just the one at x is new. */
  function Marked(n: nat, x: nat): (infos: Infos)
    ensures |infos| == n && forall y :: 0 <= y < n ==> infos[y] == Info(if y == x then New else Old, 0, 0, 0)
  {
    seq(n, (y: nat) => Info(if y == x then New else Old, 0, 0, 0))
  }

  lemma {:induction false} LatchTakesDataExact(net: Net, j: nat)
    requires WellFormed(net) && j < |net.latches|
    ensures LatchTakesData(net, j) <==> Resolved(net, j) == net.latches[j].data
  {
    DataInRange(net, j);
    if Resolved(net, j) == net.latches[j].data {
      forall infos: Infos | |infos| == |net.kind| && net.latches[j].data < |infos| && net.latches[j].bo < |infos|
        ensures SeqUpdate(net, infos, |net.latches|)[net.latches[j].bo] == infos[net.latches[j].data]
      {
        LatchReceives(net, infos, j);
      }
    } else {
      var infos := Marked(|net.kind|, net.latches[j].data);
      LatchReceives(net, infos, j);
      assert SeqUpdate(net, infos, |net.latches|)[net.latches[j].bo] != infos[net.latches[j].data];
    }
  }

  /** The sequential copies equal a simultaneous register update exactly when the latch order is safe. */
  lemma {:induction false} SequentialIsSimultaneous(net: Net)
    requires WellFormed(net)
    ensures LatchOrderSafe(net) <==> forall j: nat :: j < |net.latches| ==> LatchTakesData(net, j)
  {
    forall j: nat | j < |net.latches|
      ensures LatchTakesData(net, j) <==> Resolved(net, j) == net.latches[j].data
    {
      LatchTakesDataExact(net, j);
    }
  }

  // ----- the network that is really simulated -----

  /** The network in which each latch is driven by the object whose record it receives. */
  function ReadThrough(net: Net): (r: Net)
    ensures r.kind == net.kind && r.fanins == net.fanins && r.func == net.func && r.order == net.order
    ensures |r.latches| == |net.latches|
    ensures forall j :: 0 <= j < |net.latches| ==> r.latches[j] == net.latches[j].(data := Resolved(net, j))
  {
    net.(latches := seq(|net.latches|, (j: nat) requires j < |net.latches| =>
      net.latches[j].(data := Resolved(net, j))))
  }

  lemma {:induction false} ResolvedReady(net: Net, j: nat)
    requires WellFormed(net) && j < |net.latches|
    ensures ReadyBefore(net, |net.order|, Resolved(net, j))
  {
    assert LatchOk(net, j);
    var i := EarlierWriter(net, net.latches[j].data, j);
    if i >= 0 {
      ResolvedReady(net, i);
    }
  }

  lemma {:induction false} ReadThroughWellFormed(net: Net)
    requires WellFormed(net)
    ensures WellFormed(ReadThrough(net))
  {
    var r := ReadThrough(net);
    forall k: nat | k < |r.order|
      ensures ItemOk(r, k)
    {
      assert ItemOk(net, k);
    }
    forall j: nat | j < |r.latches|
      ensures LatchOk(r, j)
    {
      assert LatchOk(net, j);
      ResolvedReady(net, j);
    }
    forall x: nat | x < |r.kind| && r.kind[x] == LatchOut
      ensures exists j :: 0 <= j < |r.latches| && r.latches[j].bo == x
    {
      var j :| 0 <= j < |net.latches| && net.latches[j].bo == x;
      assert r.latches[j].bo == x;
    }
  }

  /** It is the given network exactly when the latch order is safe. */
  lemma {:induction false} ReadThroughIsNet(net: Net)
    ensures ReadThrough(net) == net <==> LatchOrderSafe(net)
  {
    var r := ReadThrough(net);
    if LatchOrderSafe(net) {
      forall j: nat | j < |net.latches|
        ensures r.latches[j] == net.latches[j]
      {
        assert Resolved(net, j) == net.latches[j].data;
      }
      assert r.latches == net.latches;
    }
    if r == net {
      forall j: nat | j < |net.latches|
        ensures Resolved(net, j) == net.latches[j].data
      {
        assert r.latches[j] == net.latches[j];
      }
    }
  }

  /**
   * A shift register whose second latch is listed behind the first: input 0 drives the latch of objects
   * 1, 2 and 3, and its output drives the one of objects 4, 5 and 6.
   */
  function ShiftRegister(): Net {
    Net([PrimaryIn, LatchIn, Latch, LatchOut, LatchIn, Latch, LatchOut],
        seq(7, _ => []), seq(7, _ => (values => false)), [], [LatchBox(1, 2, 3, 0), LatchBox(4, 5, 6, 3)])
  }

  lemma {:induction false} ShiftRegisterWellFormed()
    ensures WellFormed(ShiftRegister())
  {
    var net := ShiftRegister();
    assert LatchOk(net, 0) && LatchOk(net, 1);
    assert net.latches[0].bo == 3 && net.latches[1].bo == 6;
    forall x: nat | x < |net.kind| && net.kind[x] == LatchOut
      ensures x == 3 || x == 6
    {
    }
  }

  /** Its second latch gets the new record of the first. */
  lemma {:induction false} ShiftRegisterUnsafe()
    ensures WellFormed(ShiftRegister()) && !LatchOrderSafe(ShiftRegister())
    ensures |ShiftRegister().latches| == 2 && !LatchTakesData(ShiftRegister(), 1)
  {
    ShiftRegisterWellFormed();
    var net := ShiftRegister();
    assert net.latches[0].bo == 3 == net.latches[1].data;
    assert EarlierWriter(net, 3, 1) == 0;
    assert Resolved(net, 0) == 0;
    assert Resolved(net, 1) == Resolved(net, 0);
    LatchTakesDataExact(net, 1);
  }
}
