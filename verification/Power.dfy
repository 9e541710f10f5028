/** Exponentiation as networks of multipliers: a chain for a constant exponent, a table and a multiplexer otherwise. */
module Power {
  import opened Bits
  import opened Nets

  datatype Net =
    | Gnd
    | Vcc
    | Base(bit: nat)
    | Expo(bit: nat)
    | Product(index: nat, bit: nat)  // an output of a multiplier inside the network
    | Out(bit: nat)                  // an output pin of the power node

  /** Nodes hold their input ports one behind the other in one list of pins. */
  datatype Gate =
    | Multiply(pins: seq<Net>, width: nat, out: seq<Net>)
    | MultiportMux(pins: seq<Net>, selWidth: nat, width: nat, out: seq<Net>)

  type Wires = Net -> bool

  /** Where port i starts, behind the selector. */
  function PortOffset(i: nat, width: nat): nat {
    if i == 0 then 0 else PortOffset(i - 1, width) + width
  }

  // ----- the numbers meant -----

  /** The base as the source language reads it. */
  ghost function BaseValue(base: seq<Net>, signed: bool, w: Wires): int
    requires |base| >= 1
  {
    if signed && w(base[|base| - 1]) then Number(base, w) - Pow2(|base|) else Number(base, w)
  }

  function Padded(base: seq<Net>, signed: bool, width: nat): (p: seq<Net>)
    requires |base| >= 1
    ensures |p| == width
  {
    seq(width, k requires 0 <= k < width => if k < |base| then base[k] else if signed then base[|base| - 1] else Gnd)
  }

  lemma {:induction false} ModShift(x: int, k: int, m: nat)
    requires m > 0
    ensures (x + k * m) % m == x % m
  {
    ModUnique(x + k * m, m, x / m + k, x % m);
  }

  function Ones(n: nat): (z: seq<bool>)
    ensures |z| == n
  {
    seq(n, _ => true)
  }

  lemma {:induction false} ValOnes(n: nat)
    ensures Val(Ones(n)) == Pow2(n) - 1
  {
    if n > 0 {
      assert Ones(n)[1..] == Ones(n - 1);
      ValOnes(n - 1);
    }
  }

  lemma {:induction false} ExtendedSum(total: int, v: int, p: int, ones: int, q: int, pq: int)
    requires total == v + p * ones && ones == q - 1 && pq == p * q
    ensures total == v - p + pq
  {
    assert p * (q - 1) == p * q - p;
  }

  lemma {:induction false} SignExtended(bs: seq<bool>, k: nat)
    ensures Val(bs + Ones(k)) == Val(bs) - Pow2(|bs|) + Pow2(|bs| + k)
  {
    var ones := Ones(k);
    ValAppend(bs, ones);
    ValOnes(k);
    Pow2Add(|bs|, k);
    ExtendedSum(Val(bs + ones), Val(bs), Pow2(|bs|), Val(ones), Pow2(k), Pow2(|bs| + k));
  }

  /** t is x reduced modulo m. */
  ghost predicate Reduced(t: int, x: int, m: int) {
    m > 0 && t == x % m
  }

  lemma {:induction false} CutAt(from: seq<bool>, n: nat) returns (hi: nat, q: nat)
    requires n <= |from|
    ensures Val(from) == Val(from[..n]) + Pow2(n) * hi && Val(from[..n]) < Pow2(n)
    ensures Pow2(|from|) == Pow2(n) * q
  {
    assert from == from[..n] + from[n..];
    ValAppend(from[..n], from[n..]);
    ValBound(from[..n]);
    Pow2Add(n, |from| - n);
    hi, q := Val(from[n..]), Pow2(|from| - n);
  }

  lemma {:induction false} TruncatedSum(v: int, lo: int, hi: int, p: int, q: int, pq: int)
    requires v == lo + p * hi && pq == p * q && 0 <= lo < p
    ensures Reduced(lo, v - pq, p)
  {
    assert (hi - q) * p == p * hi - p * q;
    ModUnique(v - pq, p, hi - q, lo);
  }

  lemma {:induction false} SignTruncated(from: seq<bool>, n: nat)
    requires n <= |from|
    ensures Reduced(Val(from[..n]), Val(from) - Pow2(|from|), Pow2(n))
  {
    var v, lo, p, pq := Val(from), Val(from[..n]), Pow2(n), Pow2(|from|);
    var hi, q := CutAt(from, n);
    TruncatedSum(v, lo, hi, p, q, pq);
  }

  lemma {:induction false} Wrapped(t: nat, v: int, p: int, m: nat)
    requires t < m && t == v - p + m
    ensures Reduced(t, v - p, m)
  {
    ModUnique(v - p, m, -1, t);
  }

  lemma {:induction false} SignExtendedMod(from: seq<bool>, k: nat)
    ensures Reduced(Val(from + Ones(k)), Val(from) - Pow2(|from|), Pow2(|from| + k))
  {
    var to := from + Ones(k);
    SignExtended(from, k);
    ValBound(to);
    Wrapped(Val(to), Val(from), Pow2(|from|), Pow2(|from| + k));
  }

  /** Extension by zeros or by the sign, and truncation, keep the base modulo the new width. */
  lemma {:induction false} PaddedValue(base: seq<Net>, signed: bool, width: nat, w: Wires)
    requires |base| >= 1 && !w(Gnd)
    ensures Number(Padded(base, signed, width), w) == BaseValue(base, signed, w) % Pow2(width)
  {
    var n, from, to := |base|, Bus(base, w), Bus(Padded(base, signed, width), w);
    if !(signed && w(base[n - 1])) {
      ValFitted(to, from);
    } else if width <= n {
      assert to == from[..width];
      SignTruncated(from, width);
    } else {
      assert to == from + Ones(width - n);
      SignExtendedMod(from, width - n);
    }
  }

  lemma {:induction false} ModTimes(x: int, y: int, m: nat)
    requires m > 0
    ensures (x % m) * (y % m) % m == x * y % m
  {
    var a, b, p, q := x % m, y % m, x / m, y / m;
    assert x == p * m + a && y == q * m + b;
    assert x * y == a * b + (p * q * m + p * b + a * q) * m by {
      assert (p * m + a) * (q * m + b) == p * m * (q * m) + p * m * b + a * (q * m) + a * b;
      assert p * m * (q * m) == (p * q * m) * m;
      assert p * m * b == (p * b) * m;
      assert a * (q * m) == (a * q) * m;
    }
    ModShift(a * b, p * q * m + p * b + a * q, m);
  }

  /** Multiplying residues, as a multiplier of the network does. */
  function TimesMod(x: nat, y: nat, m: nat): nat
    requires m > 0
  {
    x * y % m
  }

  /** A multiplier keeps the low half of the product; a multiplexer passes the port its selector names. */
  ghost predicate Holds(g: Gate, w: Wires) {
    match g
    case Multiply(pins, width, out) =>
      && |pins| == 2 * width && |out| == width
      && Number(out, w) == TimesMod(Number(pins[..width], w), Number(pins[width..], w), Pow2(width))
    case MultiportMux(pins, selWidth, width, out) =>
      && |pins| == selWidth + PortOffset(Pow2(selWidth), width) && |out| == width
      && var port := selWidth + PortOffset(Number(pins[..selWidth], w), width);
         forall j :: 0 <= j < width && port + j < |pins| ==> w(out[j]) == w(pins[port + j])
  }

  ghost predicate AllHold(gs: seq<Gate>, w: Wires) {
    !w(Gnd) && w(Vcc) && forall k :: 0 <= k < |gs| ==> Holds(gs[k], w)
  }

  /** One more multiplier, one more factor. */
  lemma {:induction false} OneMoreFactor(b: int, e: nat, m: nat)
    requires m > 0
    ensures TimesMod(Pow(b, e) % m, b % m, m) == Pow(b, e + 1) % m
  {
    ModTimes(Pow(b, e), b, m);
    MulCommutes(Pow(b, e), b);
  }

  function OutBus(width: nat): (r: seq<Net>)
    ensures |r| == width
  {
    seq(width, j requires 0 <= j < width => Out(j))
  }

  function ProductBus(i: nat, width: nat): (r: seq<Net>)
    ensures |r| == width
  {
    seq(width, j requires 0 <= j < width => Product(i, j))
  }

  // ----- constant exponent -----

  /** The output bus of multiplier i in a chain of e - 1. */
  function ChainOut(i: nat, e: nat, width: nat): (r: seq<Net>)
    ensures |r| == width
  {
    if i + 2 == e then OutBus(width) else ProductBus(i, width)
  }

  function ChainGate(base: seq<Net>, i: nat, e: nat): Gate {
    Multiply((if i == 0 then base else ChainOut(i - 1, e, |base|)) + base, |base|, ChainOut(i, e, |base|))
  }

  /** base is the padded base. */
  function Chain(base: seq<Net>, e: nat): (gs: seq<Gate>)
    requires e >= 1
    ensures |gs| == e - 1 && forall i :: 0 <= i < e - 1 ==> gs[i] == ChainGate(base, i, e)
  {
    seq(e - 1, i requires 0 <= i < e - 1 => ChainGate(base, i, e))
  }

  /** Multiplier i of the chain multiplies the base with what it gets from the multiplier before. */
  lemma {:induction false} ChainMultiplies(base: seq<Net>, e: nat, i: nat, w: Wires)
    requires e >= 2 && i + 2 <= e && AllHold(Chain(base, e), w)
    ensures Number(ChainOut(i, e, |base|), w) ==
      TimesMod(Number(if i == 0 then base else ChainOut(i - 1, e, |base|), w), Number(base, w), Pow2(|base|))
  {
    var width, g := |base|, ChainGate(base, i, e);
    assert Holds(Chain(base, e)[i], w);
    assert g.pins[..width] == (if i == 0 then base else ChainOut(i - 1, e, width)) && g.pins[width..] == base;
  }

  lemma {:induction false} ChainPowers(base: seq<Net>, e: nat, i: nat, b: int, w: Wires)
    requires e >= 2 && i + 2 <= e && AllHold(Chain(base, e), w)
    requires Number(base, w) == b % Pow2(|base|)
    ensures Number(ChainOut(i, e, |base|), w) == Pow(b, i + 2) % Pow2(|base|)
    decreases i
  {
    ChainMultiplies(base, e, i, w);
    OneMoreFactor(b, i + 1, Pow2(|base|));
    if i == 0 {
      assert Pow(b, 1) == b * Pow(b, 0) == b;
    } else {
      ChainPowers(base, e, i - 1, b, w);
    }
  }

  /** The network drives the outputs of a power node with base to the e, modulo the output width. */
  ghost predicate ComputesPower(gs: seq<Gate>, base: seq<Net>, signed: bool, e: nat, width: nat)
    requires |base| >= 1
  {
    forall w: Wires :: AllHold(gs, w) ==> Number(OutBus(width), w) == Pow(BaseValue(base, signed, w), e) % Pow2(width)
  }

  lemma {:induction false} ChainPower(base: seq<Net>, signed: bool, e: nat, width: nat, w: Wires)
    requires |base| >= 1 && e >= 2 && AllHold(Chain(Padded(base, signed, width), e), w)
    ensures Number(OutBus(width), w) == Pow(BaseValue(base, signed, w), e) % Pow2(width)
  {
    PaddedValue(base, signed, width, w);
    ChainPowers(Padded(base, signed, width), e, e - 2, BaseValue(base, signed, w), w);
  }

  lemma {:induction false} AllHoldLast(before: seq<Gate>, gs: seq<Gate>, w: Wires)
    requires AllHold(before + gs, w)
    ensures AllHold(gs, w)
  {
    forall k | 0 <= k < |gs|
      ensures Holds(gs[k], w)
    {
      assert (before + gs)[|before| + k] == gs[k];
    }
  }

  ghost predicate IsBasePort(base: seq<Net>) {
    |base| >= 1 && forall k :: 0 <= k < |base| ==> base[k] == Base(k)
  }

  /** Without a multiplier nothing drives the outputs. */
  lemma {:induction false} NoChainNoPower(base: seq<Net>, signed: bool, width: nat)
    requires IsBasePort(base) && width >= 1
    ensures !ComputesPower(Chain(Padded(base, signed, width), 1), base, signed, 1, width)
  {
    var w: Wires := n => n == Vcc || n.Out?;
    assert AllHold(Chain(Padded(base, signed, width), 1), w);
    ValZeros(Bus(base, w));
    assert !w(base[|base| - 1]);
    assert BaseValue(base, signed, w) == 0 && Pow(0, 1) == Pow(0, 0) * 0;
    assert Bus(OutBus(width), w)[0];
  }

  /** The chain is right for every base exactly when there is at least one multiplier in it. */
  lemma {:induction false} ConstantPowerExact(base: seq<Net>, signed: bool, e: nat, width: nat)
    requires IsBasePort(base) && e >= 1 && width >= 1
    ensures ComputesPower(Chain(Padded(base, signed, width), e), base, signed, e, width) <==> e >= 2
  {
    if e >= 2 {
      forall w: Wires | AllHold(Chain(Padded(base, signed, width), e), w)
        ensures Number(OutBus(width), w) == Pow(BaseValue(base, signed, w), e) % Pow2(width)
      {
        ChainPower(base, signed, e, width, w);
      }
    } else {
      NoChainNoPower(base, signed, width);
    }
  }

  // ----- variable exponent -----

  /** The constant one, the base, and then the multipliers' outputs. */
  function TableEntry(padded: seq<Net>, i: nat): (r: seq<Net>)
    ensures |r| == |padded|
  {
    if i == 0 then seq(|padded|, j requires 0 <= j < |padded| => if j == 0 then Vcc else Gnd)
    else if i == 1 then padded
    else ProductBus(i, |padded|)
  }

  function TableGate(padded: seq<Net>, i: nat): Gate
    requires i >= 2
  {
    Multiply(TableEntry(padded, i - 1) + padded, |padded|, ProductBus(i, |padded|))
  }

  /** Multipliers for the powers from 2 up to n - 1. */
  function Table(padded: seq<Net>, n: nat): (gs: seq<Gate>)
    requires n >= 2
    ensures |gs| == n - 2 && forall k :: 0 <= k < n - 2 ==> gs[k] == TableGate(padded, k + 2)
  {
    seq(n - 2, k requires 0 <= k < n - 2 => TableGate(padded, k + 2))
  }

  /** The first n entries, one behind the other. */
  function Entries(padded: seq<Net>, n: nat): (r: seq<Net>)
    ensures |r| == PortOffset(n, |padded|)
  {
    if n == 0 then [] else Entries(padded, n - 1) + TableEntry(padded, n - 1)
  }

  lemma {:induction false} EntryAt(padded: seq<Net>, n: nat, i: nat, j: nat)
    requires i < n && j < |padded|
    ensures PortOffset(i, |padded|) + j < |Entries(padded, n)|
    ensures Entries(padded, n)[PortOffset(i, |padded|) + j] == TableEntry(padded, i)[j]
  {
    if i < n - 1 {
      EntryAt(padded, n - 1, i, j);
    }
  }

  function TableMux(padded: seq<Net>, expo: seq<Net>): Gate {
    MultiportMux(expo + Entries(padded, Pow2(|expo|)), |expo|, |padded|, OutBus(|padded|))
  }

  function TableNetwork(padded: seq<Net>, expo: seq<Net>): seq<Gate>
    requires |expo| >= 1
  {
    Table(padded, Pow2(|expo|)) + [TableMux(padded, expo)]
  }

  lemma {:induction false} OneWord(nets: seq<Net>, w: Wires)
    requires |nets| >= 1 && nets[0] == Vcc && (forall j :: 1 <= j < |nets| ==> nets[j] == Gnd) && !w(Gnd) && w(Vcc)
    ensures Number(nets, w) == 1
  {
    var bs := Bus(nets, w);
    assert bs[0];
    ValZeros(bs[1..]);
  }

  lemma {:induction false} OneIsReduced(b: int, width: nat)
    requires width >= 1
    ensures Pow(b, 0) % Pow2(width) == 1
  {
    assert Pow2(width) == 2 * Pow2(width - 1) >= 2;
    ModUnique(1, Pow2(width), 0, 1);
  }

  lemma {:induction false} TableStep(padded: seq<Net>, i: nat, w: Wires)
    requires i >= 2 && Holds(TableGate(padded, i), w)
    ensures Number(TableEntry(padded, i), w) ==
      TimesMod(Number(TableEntry(padded, i - 1), w), Number(padded, w), Pow2(|padded|))
  {
    var g := TableGate(padded, i);
    assert g.pins[..|padded|] == TableEntry(padded, i - 1) && g.pins[|padded|..] == padded;
  }

  lemma {:induction false} SameBus(a: seq<Net>, b: seq<Net>, w: Wires)
    requires |a| == |b| && forall j :: 0 <= j < |a| ==> w(a[j]) == w(b[j])
    ensures Number(a, w) == Number(b, w)
  {
    assert Bus(a, w) == Bus(b, w);
  }

  lemma {:induction false} PortPasses(select: seq<Net>, ports: seq<Net>, width: nat, out: seq<Net>, j: nat, w: Wires)
    requires Holds(MultiportMux(select + ports, |select|, width, out), w)
    requires j < width && PortOffset(Number(select, w), width) + j < |ports|
    ensures |out| == width && w(out[j]) == w(ports[PortOffset(Number(select, w), width) + j])
  {
    var pins := select + ports;
    assert pins[..|select|] == select;
    var at := PortOffset(Number(select, w), width) + j;
    assert pins[|select| + at] == ports[at];
  }

  lemma {:induction false} MuxBit(padded: seq<Net>, expo: seq<Net>, n: nat, j: nat, w: Wires)
    requires j < |padded| && Number(expo, w) < n
    requires Holds(MultiportMux(expo + Entries(padded, n), |expo|, |padded|, OutBus(|padded|)), w)
    ensures w(OutBus(|padded|)[j]) == w(TableEntry(padded, Number(expo, w))[j])
  {
    EntryAt(padded, n, Number(expo, w), j);
    PortPasses(expo, Entries(padded, n), |padded|, OutBus(|padded|), j, w);
  }

  lemma {:induction false} MuxPasses(padded: seq<Net>, expo: seq<Net>, n: nat, w: Wires)
    requires Number(expo, w) < n
    requires Holds(MultiportMux(expo + Entries(padded, n), |expo|, |padded|, OutBus(|padded|)), w)
    ensures Number(OutBus(|padded|), w) == Number(TableEntry(padded, Number(expo, w)), w)
  {
    forall j | 0 <= j < |padded|
      ensures w(OutBus(|padded|)[j]) == w(TableEntry(padded, Number(expo, w))[j])
    {
      MuxBit(padded, expo, n, j, w);
    }
    SameBus(OutBus(|padded|), TableEntry(padded, Number(expo, w)), w);
  }

  // ----- the networks have behaviours -----

  function PowMod(p: nat, e: nat, width: nat): nat {
    Pow(p, e) % Pow2(width)
  }

  /** Wires on which bus of index i carries Pow(p, i + shift), and the output Pow(p, top). */
  function Settled(inputs: Wires, p: nat, width: nat, shift: nat, top: nat): Wires {
    (n: Net) =>
      match n
      case Gnd => false
      case Vcc => true
      case Product(i, j) => j < width && Word(PowMod(p, i + shift, width), width)[j]
      case Out(j) => j < width && Word(PowMod(p, top, width), width)[j]
      case _ => inputs(n)
  }

  ghost predicate IsInputBus(nets: seq<Net>) {
    forall k :: 0 <= k < |nets| ==> !nets[k].Product? && !nets[k].Out?
  }

  lemma {:induction false} SettledBuses(inputs: Wires, p: nat, width: nat, shift: nat, top: nat, i: nat)
    ensures Number(ProductBus(i, width), Settled(inputs, p, width, shift, top)) == PowMod(p, i + shift, width)
    ensures Number(OutBus(width), Settled(inputs, p, width, shift, top)) == PowMod(p, top, width)
  {
    var w := Settled(inputs, p, width, shift, top);
    assert Bus(ProductBus(i, width), w) == Word(PowMod(p, i + shift, width), width);
    assert Bus(OutBus(width), w) == Word(PowMod(p, top, width), width);
    ValWord(PowMod(p, i + shift, width), width);
    ValWord(PowMod(p, top, width), width);
  }

  lemma {:induction false} MultiplierSettled(a: seq<Net>, b: seq<Net>, out: seq<Net>, w: Wires, p: nat, e: nat)
    requires |a| == |b| == |out|
    requires Number(a, w) == PowMod(p, e, |a|) && Number(b, w) == p % Pow2(|a|)
      && Number(out, w) == PowMod(p, e + 1, |a|)
    ensures Holds(Multiply(a + b, |a|, out), w)
  {
    var width := |a|;
    OneMoreFactor(p, e, Pow2(width));
    assert (a + b)[..width] == a && (a + b)[width..] == b;
  }

  lemma {:induction false} PowOne(p: int)
    ensures Pow(p, 1) == p
  {
    assert Pow(p, 0) == 1;
  }

  lemma {:induction false} TableStart(padded: seq<Net>, i: nat, b: int, w: Wires)
    requires i < 2 && |padded| >= 1 && !w(Gnd) && w(Vcc)
    requires Number(padded, w) == b % Pow2(|padded|)
    ensures Number(TableEntry(padded, i), w) == Pow(b, i) % Pow2(|padded|)
  {
    if i == 0 {
      OneWord(TableEntry(padded, 0), w);
      OneIsReduced(b, |padded|);
    } else {
      PowOne(b);
    }
  }

  lemma {:induction false} TablePowers(padded: seq<Net>, n: nat, i: nat, b: int, w: Wires)
    requires n >= 2 && i < n && |padded| >= 1 && AllHold(Table(padded, n), w)
    requires Number(padded, w) == b % Pow2(|padded|)
    ensures Number(TableEntry(padded, i), w) == Pow(b, i) % Pow2(|padded|)
    decreases i
  {
    if i < 2 {
      TableStart(padded, i, b, w);
    } else {
      TablePowers(padded, n, i - 1, b, w);
      assert Holds(Table(padded, n)[i - 2], w);
      TableStep(padded, i, w);
      OneMoreFactor(b, i - 1, Pow2(|padded|));
    }
  }

  /** For every base and every value of the exponent port, the table network computes the power. */
  lemma {:induction false} VariablePower(base: seq<Net>, signed: bool, expo: seq<Net>, width: nat, w: Wires)
    requires |base| >= 1 && |expo| >= 1 && width >= 1
    requires AllHold(TableNetwork(Padded(base, signed, width), expo), w)
    ensures Number(OutBus(width), w) == Pow(BaseValue(base, signed, w), Number(expo, w)) % Pow2(width)
  {
    var padded, n := Padded(base, signed, width), Pow2(|expo|);
    var gs := TableNetwork(padded, expo);
    assert n == 2 * Pow2(|expo| - 1) >= 2;
    assert gs[|gs| - 1] == TableMux(padded, expo);
    forall k | 0 <= k < n - 2
      ensures Holds(Table(padded, n)[k], w)
    {
      assert gs[k] == Table(padded, n)[k];
    }
    PaddedValue(base, signed, width, w);
    ValBound(Bus(expo, w));
    MuxPasses(padded, expo, n, w);
    TablePowers(padded, n, Number(expo, w), BaseValue(base, signed, w), w);
  }

  lemma {:induction false} FirstPower(p: nat, width: nat)
    requires p < Pow2(width)
    ensures PowMod(p, 1, width) == p == p % Pow2(width)
  {
    PowOne(p);
    ModUnique(p, Pow2(width), 0, p);
  }

  lemma {:induction false} ChainOutSettled(inputs: Wires, p: nat, i: nat, e: nat, width: nat)
    requires i + 2 <= e
    ensures Number(ChainOut(i, e, width), Settled(inputs, p, width, 2, e)) == PowMod(p, i + 2, width)
  {
    SettledBuses(inputs, p, width, 2, e, i);
  }

  lemma {:induction false} ChainGateBehaves(base: seq<Net>, e: nat, i: nat, inputs: Wires, p: nat)
    requires i + 2 <= e && Number(base, Settled(inputs, p, |base|, 2, e)) == p
    ensures Holds(ChainGate(base, i, e), Settled(inputs, p, |base|, 2, e))
  {
    var width, w := |base|, Settled(inputs, p, |base|, 2, e);
    ValBound(Bus(base, w));
    FirstPower(p, width);
    ChainOutSettled(inputs, p, i, e, width);
    if i == 0 {
      MultiplierSettled(base, base, ChainOut(0, e, width), w, p, 1);
    } else {
      ChainOutSettled(inputs, p, i - 1, e, width);
      MultiplierSettled(ChainOut(i - 1, e, width), base, ChainOut(i, e, width), w, p, i + 1);
    }
  }

  /** Whatever the base pins carry, the chain has a behaviour that agrees with it. */
  lemma {:induction false} ChainBehaves(base: seq<Net>, e: nat, inputs: Wires) returns (w: Wires)
    requires e >= 2 && IsInputBus(base) && !inputs(Gnd) && inputs(Vcc)
    ensures AllHold(Chain(base, e), w) && Bus(base, w) == Bus(base, inputs)
  {
    var p := Number(base, inputs);
    w := Settled(inputs, p, |base|, 2, e);
    assert Bus(base, w) == Bus(base, inputs);
    forall i | 0 <= i < e - 1
      ensures Holds(Chain(base, e)[i], w)
    {
      ChainGateBehaves(base, e, i, inputs, p);
    }
  }

  lemma {:induction false} TableEntrySettled(padded: seq<Net>, i: nat, inputs: Wires, p: nat, top: nat)
    requires |padded| >= 1 && Number(padded, Settled(inputs, p, |padded|, 0, top)) == p
    ensures Number(TableEntry(padded, i), Settled(inputs, p, |padded|, 0, top)) == PowMod(p, i, |padded|)
  {
    var w := Settled(inputs, p, |padded|, 0, top);
    if i == 0 {
      OneWord(TableEntry(padded, 0), w);
      OneIsReduced(p, |padded|);
    } else if i == 1 {
      ValBound(Bus(padded, w));
      FirstPower(p, |padded|);
    } else {
      SettledBuses(inputs, p, |padded|, 0, top, i);
    }
  }

  lemma {:induction false} TableGateBehaves(padded: seq<Net>, i: nat, inputs: Wires, p: nat, top: nat)
    requires i >= 2 && |padded| >= 1 && Number(padded, Settled(inputs, p, |padded|, 0, top)) == p
    ensures Holds(TableGate(padded, i), Settled(inputs, p, |padded|, 0, top))
  {
    var w := Settled(inputs, p, |padded|, 0, top);
    ValBound(Bus(padded, w));
    FirstPower(p, |padded|);
    TableEntrySettled(padded, i, inputs, p, top);
    TableEntrySettled(padded, i - 1, inputs, p, top);
    MultiplierSettled(TableEntry(padded, i - 1), padded, ProductBus(i, |padded|), w, p, i - 1);
  }

  lemma {:induction false} SelectedBit(padded: seq<Net>, expo: seq<Net>, n: nat, s: nat, j: nat, w: Wires)
    requires s < n && j < |padded| && Number(OutBus(|padded|), w) == Number(TableEntry(padded, s), w)
    ensures PortOffset(s, |padded|) + j < |Entries(padded, n)|
    ensures w(OutBus(|padded|)[j]) == w((expo + Entries(padded, n))[|expo| + PortOffset(s, |padded|) + j])
  {
    ValInjective(Bus(OutBus(|padded|), w), Bus(TableEntry(padded, s), w));
    assert Bus(OutBus(|padded|), w)[j] == Bus(TableEntry(padded, s), w)[j];
    EntryAt(padded, n, s, j);
    var at := PortOffset(s, |padded|) + j;
    assert (expo + Entries(padded, n))[|expo| + at] == Entries(padded, n)[at];
  }

  /** A multiplexer behaves if its output carries what the selected entry carries. */
  lemma {:induction false} MuxBehaves(padded: seq<Net>, expo: seq<Net>, n: nat, s: nat, w: Wires)
    requires n == Pow2(|expo|) && s == Number(expo, w) < n
    requires Number(OutBus(|padded|), w) == Number(TableEntry(padded, s), w)
    ensures Holds(MultiportMux(expo + Entries(padded, n), |expo|, |padded|, OutBus(|padded|)), w)
  {
    var pins := expo + Entries(padded, n);
    assert pins[..|expo|] == expo;
    forall j | 0 <= j < |padded|
      ensures PortOffset(s, |padded|) + j < |Entries(padded, n)|
      ensures w(OutBus(|padded|)[j]) == w(pins[|expo| + PortOffset(s, |padded|) + j])
    {
      SelectedBit(padded, expo, n, s, j, w);
    }
  }

  lemma {:induction false} TableGatesBehave(padded: seq<Net>, n: nat, inputs: Wires, p: nat, top: nat)
    requires n >= 2 && |padded| >= 1 && Number(padded, Settled(inputs, p, |padded|, 0, top)) == p
    ensures forall k :: 0 <= k < n - 2 ==> Holds(Table(padded, n)[k], Settled(inputs, p, |padded|, 0, top))
  {
    forall k | 0 <= k < n - 2
      ensures Holds(Table(padded, n)[k], Settled(inputs, p, |padded|, 0, top))
    {
      TableGateBehaves(padded, k + 2, inputs, p, top);
    }
  }

  lemma {:induction false} TableMuxBehaves(padded: seq<Net>, expo: seq<Net>, inputs: Wires, p: nat, top: nat)
    requires |padded| >= 1 && |expo| >= 1 && Number(padded, Settled(inputs, p, |padded|, 0, top)) == p
    requires Number(expo, Settled(inputs, p, |padded|, 0, top)) == top
    ensures Holds(TableMux(padded, expo), Settled(inputs, p, |padded|, 0, top))
  {
    var w := Settled(inputs, p, |padded|, 0, top);
    SettledBuses(inputs, p, |padded|, 0, top, 0);
    TableEntrySettled(padded, top, inputs, p, top);
    ValBound(Bus(expo, w));
    MuxBehaves(padded, expo, Pow2(|expo|), top, w);
  }

  /** Whatever the base and exponent pins carry, the table network has a behaviour that agrees with them. */
  lemma {:induction false} TableBehaves(padded: seq<Net>, expo: seq<Net>, inputs: Wires) returns (w: Wires)
    requires |padded| >= 1 && |expo| >= 1 && IsInputBus(padded) && IsInputBus(expo) && !inputs(Gnd) && inputs(Vcc)
    ensures AllHold(TableNetwork(padded, expo), w)
    ensures Bus(padded, w) == Bus(padded, inputs) && Bus(expo, w) == Bus(expo, inputs)
  {
    var p, top, n := Number(padded, inputs), Number(expo, inputs), Pow2(|expo|);
    w := Settled(inputs, p, |padded|, 0, top);
    assert Bus(padded, w) == Bus(padded, inputs) && Bus(expo, w) == Bus(expo, inputs);
    assert n == 2 * Pow2(|expo| - 1) >= 2;
    TableGatesBehave(padded, n, inputs, p, top);
    TableMuxBehaves(padded, expo, inputs, p, top);
  }

  // ----- the builders -----

  /** Behind other gates, a chain still computes its power in all behaviours. */
  lemma {:induction false} ChainAppended(before: seq<Gate>, base: seq<Net>, signed: bool, e: nat, width: nat)
    requires |base| >= 1 && e >= 1
    ensures e >= 2 ==> forall w: Wires :: AllHold(before + Chain(Padded(base, signed, width), e), w) ==>
      Number(OutBus(width), w) == Pow(BaseValue(base, signed, w), e) % Pow2(width)
  {
    forall w: Wires | e >= 2 && AllHold(before + Chain(Padded(base, signed, width), e), w)
      ensures Number(OutBus(width), w) == Pow(BaseValue(base, signed, w), e) % Pow2(width)
    {
      AllHoldLast(before, Chain(Padded(base, signed, width), e), w);
      ChainPower(base, signed, e, width, w);
    }
  }

  lemma {:induction false} TableAppended(before: seq<Gate>, base: seq<Net>, signed: bool, expo: seq<Net>, width: nat)
    requires |base| >= 1 && |expo| >= 1
    ensures width >= 1 ==> forall w: Wires :: AllHold(before + TableNetwork(Padded(base, signed, width), expo), w) ==>
      Number(OutBus(width), w) == Pow(BaseValue(base, signed, w), Number(expo, w)) % Pow2(width)
  {
    forall w: Wires | width >= 1 && AllHold(before + TableNetwork(Padded(base, signed, width), expo), w)
      ensures Number(OutBus(width), w) == Pow(BaseValue(base, signed, w), Number(expo, w)) % Pow2(width)
    {
      AllHoldLast(before, TableNetwork(Padded(base, signed, width), expo), w);
      VariablePower(base, signed, expo, width, w);
    }
  }

  lemma {:induction false} EntriesGrow(before: seq<Net>, expo: seq<Net>, padded: seq<Net>, i: nat)
    requires before == expo + Entries(padded, i)
    ensures before + TableEntry(padded, i) == expo + Entries(padded, i + 1)
  {
  }

  class Netlist {
    var gates: seq<Gate>

    /** Hooks two operands and an output bus to a new multiplier. */
    method MakeMultiplier(a: seq<Net>, b: seq<Net>, out: seq<Net>)
      requires |a| == |b| == |out|
      modifies this
      ensures gates == old(gates) + [Multiply(a + b, |a|, out)]
    {
      var width := |out|;
      var pins, driven := seq(2 * width, _ => Gnd), seq(width, _ => Gnd);
      var j := 0;
      while j < width
        invariant 0 <= j <= width && |pins| == 2 * width && |driven| == width
        invariant forall k :: 0 <= k < j ==> pins[k] == a[k] && pins[width + k] == b[k] && driven[k] == out[k]
      {
        pins := pins[j := a[j]];
        pins := pins[width + j := b[j]];
        driven := driven[j := out[j]];
        j := j + 1;
      }
      assert pins == a + b && driven == out;
      gates := gates + [Multiply(pins, width, driven)];
    }

    method PadBase(base: seq<Net>, signed: bool, width: nat) returns (padded: seq<Net>)
      requires |base| >= 1
      ensures padded == Padded(base, signed, width)
    {
      padded := [];
      var padPin := |base| - 1;
      for i := 0 to width
        invariant padded == Padded(base, signed, width)[..i]
      {
        padded := padded + [if i < |base| then base[i] else if signed then base[padPin] else Gnd];
      }
    }

    /** An unsigned reading of the exponent's pins, whatever its sign. */
    method ConstantSignalValue(signal: seq<Net>) returns (value: nat)
      requires forall k :: 0 <= k < |signal| ==> signal[k] == Gnd || signal[k] == Vcc
      ensures forall w: Wires :: !w(Gnd) && w(Vcc) ==> value == Number(signal, w)
    {
      value := 0;
      ghost var bits := seq(|signal|, k requires 0 <= k < |signal| => signal[k] == Vcc);
      for i := 0 to |signal|
        invariant value == Val(bits[..i])
      {
        ValTakeStep(bits, i);
        if signal[i] == Vcc {
          value := value + Pow2(i);
        }
      }
      assert bits[..|signal|] == bits;
      forall w: Wires | !w(Gnd) && w(Vcc)
        ensures value == Number(signal, w)
      {
        assert Bus(signal, w) == bits;
      }
    }

    /** No exponent 0: its array of -1 multipliers cannot be allocated. */
    method ImplementConstantExponentiation(base: seq<Net>, signed: bool, expo: seq<Net>, width: nat)
      returns (ok: bool, e: nat)
      requires |base| >= 1 && forall k :: 0 <= k < |expo| ==> expo[k] == Gnd || expo[k] == Vcc
      modifies this
      ensures forall w: Wires :: !w(Gnd) && w(Vcc) ==> e == Number(expo, w)
      ensures ok <==> e >= 1
      ensures gates == old(gates) + if ok then Chain(Padded(base, signed, width), e) else []
      ensures ok && e >= 2 ==> forall w: Wires :: AllHold(gates, w) ==>
        Number(OutBus(width), w) == Pow(BaseValue(base, signed, w), e) % Pow2(width)
    {
      var padded := PadBase(base, signed, width);
      e := ConstantSignalValue(expo);
      if e == 0 {
        return false, e;
      }
      ok := true;
      var outputs := padded;
      ghost var chain := Chain(padded, e);
      var i := 0;
      while i < e - 1
        invariant 0 <= i <= e - 1
        invariant outputs == if i == 0 then padded else ChainOut(i - 1, e, width)
        invariant gates == old(gates) + chain[..i]
      {
        var out := if i != e - 2 then ProductBus(i, width) else OutBus(width);
        MakeMultiplier(outputs, padded, out);
        assert chain[..i + 1] == chain[..i] + [ChainGate(padded, i, e)];
        outputs := out;
        i := i + 1;
      }
      assert chain[..e - 1] == chain;
      ChainAppended(old(gates), base, signed, e, width);
    }

    method AddPins(before: seq<Net>, more: seq<Net>) returns (pins: seq<Net>)
      ensures pins == before + more
    {
      pins := before;
      var j := 0;
      while j < |more|
        invariant 0 <= j <= |more| && pins == before + more[..j]
      {
        pins := pins + [more[j]];
        j := j + 1;
      }
      assert more[..j] == more;
    }

    /** The selector pins, then the pins of every table entry in order. */
    method CollectEntries(entries: seq<seq<Net>>, expo: seq<Net>, ghost padded: seq<Net>) returns (pins: seq<Net>)
      requires forall k :: 0 <= k < |entries| ==> entries[k] == TableEntry(padded, k)
      ensures pins == expo + Entries(padded, |entries|)
    {
      pins := expo;
      var i := 0;
      while i < |entries|
        invariant 0 <= i <= |entries| && pins == expo + Entries(padded, i)
      {
        ghost var before := pins;
        pins := AddPins(pins, entries[i]);
        EntriesGrow(before, expo, padded, i);
        i := i + 1;
      }
    }

    /** A multiplier for each power from 2 up to n - 1, and the table of what they put out. */
    method BuildTable(padded: seq<Net>, n: nat) returns (entries: seq<seq<Net>>)
      requires n >= 2
      modifies this
      ensures gates == old(gates) + Table(padded, n)
      ensures |entries| == n && forall k :: 0 <= k < n ==> entries[k] == TableEntry(padded, k)
    {
      var width := |padded|;
      entries := [TableEntry(padded, 0), padded];
      ghost var table := Table(padded, n);
      var i := 2;
      while i < n
        invariant 2 <= i <= n && |entries| == i
        invariant forall k :: 0 <= k < i ==> entries[k] == TableEntry(padded, k)
        invariant gates == old(gates) + table[..i - 2]
      {
        MakeMultiplier(entries[i - 1], entries[1], ProductBus(i, width));
        assert table[..i - 1] == table[..i - 2] + [TableGate(padded, i)];
        entries := entries + [ProductBus(i, width)];
        i := i + 1;
      }
      assert table[..n - 2] == table;
    }

    method ImplementNonConstantExponentiation(base: seq<Net>, signed: bool, expo: seq<Net>, width: nat)
      requires |base| >= 1 && |expo| >= 1
      modifies this
      ensures gates == old(gates) + TableNetwork(Padded(base, signed, width), expo)
      ensures width >= 1 ==> forall w: Wires :: AllHold(gates, w) ==>
        Number(OutBus(width), w) == Pow(BaseValue(base, signed, w), Number(expo, w)) % Pow2(width)
    {
      var padded := PadBase(base, signed, width);
      var n := Pow2(|expo|);
      assert n == 2 * Pow2(|expo| - 1) >= 2;
      var entries := BuildTable(padded, n);
      var pins := CollectEntries(entries, expo, padded);
      gates := gates + [MultiportMux(pins, |expo|, width, OutBus(width))];
      assert gates == old(gates) + TableNetwork(padded, expo);
      TableAppended(old(gates), base, signed, expo, width);
    }
  }
}
