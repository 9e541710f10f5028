/** Memories with many write ports: the ports are merged by cascades of multiplexers. */
module MemoryCascade {
  import opened Bits

  datatype Net = Pad | One | Wire(id: nat) | MuxOut(mux: nat, bit: nat)

  /** The second input passes when the selector is 1. */
  datatype Mux = Mux(select: Net, in0: seq<Net>, in1: seq<Net>, out: seq<Net>)

  type Wires = Net -> bool

  ghost predicate Holds(m: Mux, w: Wires) {
    && |m.in0| == |m.in1| == |m.out|
    && forall j :: 0 <= j < |m.out| ==> w(m.out[j]) == if w(m.select) then w(m.in1[j]) else w(m.in0[j])
  }

  /** The pad reads as 0, as the printed netlist defines it. */
  ghost predicate AllHold(ms: seq<Mux>, w: Wires) {
    !w(Pad) && w(One) && forall k :: 0 <= k < |ms| ==> Holds(ms[k], w)
  }

  // ----- ports -----

  /** A signal list cut into ports of the given width. */
  function Chunks(signal: seq<Net>, width: nat): (cs: seq<seq<Net>>)
    ensures forall i :: 0 <= i < |cs| ==> |cs[i]| == width
  {
    if width == 0 || |signal| < width then [] else [signal[..width]] + Chunks(signal[width..], width)
  }

  lemma {:induction false} OneFewer(n: nat, width: nat)
    requires n > 0
    ensures n * width == (n - 1) * width + width && n * width >= width
  {
    assert (n - 1) * width >= 0;
  }

  lemma {:induction false} ChunkCount(signal: seq<Net>, width: nat, n: nat)
    requires width > 0 && |signal| == n * width
    ensures |Chunks(signal, width)| == n
    decreases n
  {
    if n > 0 {
      OneFewer(n, width);
      ChunkCount(signal[width..], width, n - 1);
    }
  }

  /** Bit j of port i is bit i * width + j of the signal. */
  lemma {:induction false} ChunkBits(signal: seq<Net>, width: nat, i: nat, j: nat)
    requires i < |Chunks(signal, width)| && j < width
    ensures i * width + j < |signal| && Chunks(signal, width)[i][j] == signal[i * width + j]
  {
    if i > 0 {
      OneFewer(i, width);
      ChunkBits(signal[width..], width, i - 1, j);
    }
  }

  /** The highest port whose selector is 1, or -1. */
  ghost function LastActive(selectors: seq<Net>, w: Wires): (k: int)
    ensures -1 <= k < |selectors|
    ensures k >= 0 ==> w(selectors[k])
    ensures forall i :: k < i < |selectors| ==> !w(selectors[i])
  {
    if selectors == [] then -1
    else if w(selectors[|selectors| - 1]) then |selectors| - 1
    else LastActive(selectors[..|selectors| - 1], w)
  }

  /** A bus carries the value of the highest active port, or zeros. */
  ghost predicate Passes(bus: seq<Net>, ports: seq<seq<Net>>, selectors: seq<Net>, width: nat, w: Wires)
    requires |ports| == |selectors| && forall i :: 0 <= i < |ports| ==> |ports[i]| == width
  {
    |bus| == width && forall j :: 0 <= j < width ==>
      w(bus[j]) == (LastActive(selectors, w) >= 0 && w(ports[LastActive(selectors, w)][j]))
  }

  lemma {:induction false} PassesOneMore(bus: seq<Net>, ports: seq<seq<Net>>, selectors: seq<Net>, width: nat,
                                         i: nat, m: Mux, w: Wires)
    requires |ports| == |selectors| && i < |ports| && forall k :: 0 <= k < |ports| ==> |ports[k]| == width
    requires Passes(bus, ports[..i], selectors[..i], width, w) && Holds(m, w)
    requires m.select == selectors[i] && m.in0 == bus && m.in1 == ports[i] && |m.out| == width
    ensures Passes(m.out, ports[..i + 1], selectors[..i + 1], width, w)
  {
    var before, now := selectors[..i], selectors[..i + 1];
    assert now[..i] == before && now[i] == selectors[i];
  }

  /** In every behaviour of the netlist the bus carries the value of the highest active port, or zeros. */
  ghost predicate Merges(ms: seq<Mux>, bus: seq<Net>, ports: seq<seq<Net>>, selectors: seq<Net>, width: nat)
    requires |ports| == |selectors| && forall i :: 0 <= i < |ports| ==> |ports[i]| == width
  {
    forall w: Wires :: AllHold(ms, w) ==> Passes(bus, ports, selectors, width, w)
  }

  lemma {:induction false} AllHoldPrefix(ms: seq<Mux>, more: seq<Mux>, w: Wires)
    requires AllHold(ms + more, w)
    ensures AllHold(ms, w)
    ensures forall k :: 0 <= k < |more| ==> Holds(more[k], w)
  {
    forall k | 0 <= k < |ms| ensures Holds(ms[k], w) {
      assert (ms + more)[k] == ms[k];
    }
    forall k | 0 <= k < |more| ensures Holds(more[k], w) {
      assert (ms + more)[|ms| + k] == more[k];
    }
  }

  lemma {:induction false} MergesOneMore(ms: seq<Mux>, bus: seq<Net>, ports: seq<seq<Net>>, selectors: seq<Net>,
                                         width: nat, i: nat, m: Mux)
    requires |ports| == |selectors| && i < |ports| && forall k :: 0 <= k < |ports| ==> |ports[k]| == width
    requires Merges(ms, bus, ports[..i], selectors[..i], width)
    requires m.select == selectors[i] && m.in0 == bus && m.in1 == ports[i] && |m.out| == width
    ensures Merges(ms + [m], m.out, ports[..i + 1], selectors[..i + 1], width)
  {
    forall w: Wires | AllHold(ms + [m], w)
      ensures Passes(m.out, ports[..i + 1], selectors[..i + 1], width, w)
    {
      AllHoldPrefix(ms, [m], w);
      assert Holds([m][0], w);
      PassesOneMore(bus, ports, selectors, width, i, m, w);
    }
  }

  ghost predicate Grown(was: seq<Mux>, now: seq<Mux>) {
    |was| <= |now| && now[..|was|] == was
  }

  lemma {:induction false} MergesKept(was: seq<Mux>, now: seq<Mux>, bus: seq<Net>, ports: seq<seq<Net>>,
                                      selectors: seq<Net>, width: nat)
    requires |ports| == |selectors| && forall i :: 0 <= i < |ports| ==> |ports[i]| == width
    requires Merges(was, bus, ports, selectors, width) && Grown(was, now)
    ensures Merges(now, bus, ports, selectors, width)
  {
    forall w: Wires | AllHold(now, w)
      ensures Passes(bus, ports, selectors, width, w)
    {
      assert now == was + now[|was|..];
      AllHoldPrefix(was, now[|was|..], w);
    }
  }

  // ----- behaviours exist -----

  predicate Before(n: Net, k: nat) {
    n.MuxOut? ==> n.mux < k
  }

  predicate AllBefore(nets: seq<Net>, k: nat) {
    forall j :: 0 <= j < |nets| ==> Before(nets[j], k)
  }

  ghost predicate FeedsFrom(m: Mux, k: nat) {
    && Before(m.select, k) && AllBefore(m.in0, k) && AllBefore(m.in1, k)
    && |m.in0| == |m.in1| == |m.out| && forall j :: 0 <= j < |m.out| ==> m.out[j] == MuxOut(k, j)
  }

  /** Each multiplexer drives its own nets and reads earlier ones only. */
  ghost predicate FeedForward(ms: seq<Mux>) {
    forall k :: 0 <= k < |ms| ==> FeedsFrom(ms[k], k)
  }

  ghost function NetValue(ms: seq<Mux>, inputs: Wires, n: Net): bool
    requires FeedForward(ms)
    decreases if n.MuxOut? then n.mux + 1 else 0
  {
    if !n.MuxOut? || n.mux >= |ms| || n.bit >= |ms[n.mux].out| then inputs(n)
    else
      assert FeedsFrom(ms[n.mux], n.mux);
      if NetValue(ms, inputs, ms[n.mux].select) then NetValue(ms, inputs, ms[n.mux].in1[n.bit])
      else NetValue(ms, inputs, ms[n.mux].in0[n.bit])
  }

  /** Whatever the nets from outside carry, the multiplexers have a behaviour. */
  lemma {:induction false} CascadeBehaves(ms: seq<Mux>, inputs: Wires) returns (w: Wires)
    requires FeedForward(ms) && !inputs(Pad) && inputs(One)
    ensures AllHold(ms, w) && forall n: Net :: !n.MuxOut? ==> w(n) == inputs(n)
  {
    w := n => NetValue(ms, inputs, n);
    forall k | 0 <= k < |ms|
      ensures Holds(ms[k], w)
    {
      assert FeedsFrom(ms[k], k);
    }
  }

  datatype DpRam = DpRam(addr2: seq<Net>, data2: seq<Net>, we2: Net)

  lemma {:induction false} PartsBefore(a: seq<Net>, b: seq<Net>, c: seq<Net>, k: nat)
    requires AllBefore(a + b + c, k)
    ensures AllBefore(a, k) && AllBefore(b, k) && AllBefore(c, k)
  {
    forall j | 0 <= j < |a| ensures Before(a[j], k) {
      assert (a + b + c)[j] == a[j];
    }
    forall j | 0 <= j < |b| ensures Before(b[j], k) {
      assert (a + b + c)[|a| + j] == b[j];
    }
    forall j | 0 <= j < |c| ensures Before(c[j], k) {
      assert (a + b + c)[|a| + |b| + j] == c[j];
    }
  }

  lemma {:induction false} ChunkNets(signal: seq<Net>, width: nat, k: nat, i: nat)
    requires AllBefore(signal, k) && i < |Chunks(signal, width)|
    ensures AllBefore(Chunks(signal, width)[i], k)
  {
    if i > 0 {
      ChunkNets(signal[width..], width, k, i - 1);
    }
  }

  lemma {:induction false} Divides(n: nat, width: nat)
    requires n > 2 && width > 0
    ensures n * width % width == 0 && n * width > width
  {
    OneFewer(n, width);
    OneFewer(n - 1, width);
    ModUnique(n * width, width, n, 0);
  }

  lemma {:induction false} SingleChunks(signal: seq<Net>)
    ensures |Chunks(signal, 1)| == |signal| && forall i :: 0 <= i < |signal| ==> Chunks(signal, 1)[i] == [signal[i]]
  {
    if signal != [] {
      SingleChunks(signal[1..]);
    }
  }

  ghost predicate SameValue(a: seq<Net>, b: seq<Net>, w: Wires) {
    |a| == |b| && forall j :: 0 <= j < |a| ==> w(a[j]) == w(b[j])
  }

  /**
   * Address, data and enable come from the same port: the highest one written, and the enable is 0 if
   * there is none.
   */
  lemma {:induction false} WriteSideAgrees(ms: seq<Mux>, ram: DpRam, addrs: seq<seq<Net>>, datas: seq<seq<Net>>,
                                           writeEn: seq<Net>, addrWidth: nat, dataWidth: nat, w: Wires)
    requires |addrs| == |datas| == |writeEn|
      && (forall i :: 0 <= i < |addrs| ==> |addrs[i]| == addrWidth && |datas[i]| == dataWidth)
    requires Merges(ms, ram.addr2, addrs, writeEn, addrWidth) && Merges(ms, ram.data2, datas, writeEn, dataWidth)
    requires Merges(ms, [ram.we2], seq(|writeEn|, _ => [One]), writeEn, 1) && AllHold(ms, w)
    ensures w(ram.we2) <==> exists i :: 0 <= i < |writeEn| && w(writeEn[i])
    ensures forall i :: 0 <= i < |writeEn| && w(writeEn[i]) && (forall j :: i < j < |writeEn| ==> !w(writeEn[j])) ==>
      SameValue(ram.addr2, addrs[i], w) && SameValue(ram.data2, datas[i], w)
  {
    assert w([ram.we2][0]) == w(ram.we2);
    var k := LastActive(writeEn, w);
    assert k >= 0 ==> w(writeEn[k]);
    forall i | 0 <= i < |writeEn| && w(writeEn[i]) && (forall j :: i < j < |writeEn| ==> !w(writeEn[j]))
      ensures SameValue(ram.addr2, addrs[i], w) && SameValue(ram.data2, datas[i], w)
    {
      assert i == k;
    }
  }

  /** The bus carries port k of a signal that holds the ports one behind the other. */
  ghost predicate CarriesPort(bus: seq<Net>, signal: seq<Net>, k: nat, width: nat, w: Wires) {
    && |bus| == width && k * width + width <= |signal|
    && forall j :: 0 <= j < width ==> w(bus[j]) == w(signal[k * width + j])
  }

  ghost predicate CarriesZeros(bus: seq<Net>, w: Wires) {
    forall j :: 0 <= j < |bus| ==> !w(bus[j])
  }

  /** The memory is written just when some port is, at the address and with the data of the highest one. */
  ghost predicate WritesHighest(ram: DpRam, writeAddr: seq<Net>, writeData: seq<Net>, writeEn: seq<Net>,
                                addrWidth: nat, dataWidth: nat, w: Wires) {
    && (w(ram.we2) <==> exists k :: 0 <= k < |writeEn| && w(writeEn[k]))
    && (forall k :: 0 <= k < |writeEn| && w(writeEn[k]) && (forall l :: k < l < |writeEn| ==> !w(writeEn[l])) ==>
          CarriesPort(ram.addr2, writeAddr, k, addrWidth, w) && CarriesPort(ram.data2, writeData, k, dataWidth, w))
    && (!w(ram.we2) ==> CarriesZeros(ram.addr2, w) && CarriesZeros(ram.data2, w))
  }

  lemma {:induction false} ChunkCarried(bus: seq<Net>, signal: seq<Net>, k: nat, width: nat, w: Wires)
    requires k < |Chunks(signal, width)| && width > 0 && SameValue(bus, Chunks(signal, width)[k], w)
    ensures CarriesPort(bus, signal, k, width, w)
  {
    ChunkBits(signal, width, k, width - 1);
    forall j | 0 <= j < width
      ensures w(bus[j]) == w(signal[k * width + j])
    {
      ChunkBits(signal, width, k, j);
    }
  }

  lemma {:induction false} WriteSideIsRight(ms: seq<Mux>, ram: DpRam, writeAddr: seq<Net>, writeData: seq<Net>,
                                            writeEn: seq<Net>, addrWidth: nat, dataWidth: nat, w: Wires)
    requires addrWidth > 0 && dataWidth > 0
    requires |Chunks(writeAddr, addrWidth)| == |Chunks(writeData, dataWidth)| == |writeEn|
    requires Merges(ms, ram.addr2, Chunks(writeAddr, addrWidth), writeEn, addrWidth)
    requires Merges(ms, ram.data2, Chunks(writeData, dataWidth), writeEn, dataWidth)
    requires Merges(ms, [ram.we2], seq(|writeEn|, _ => [One]), writeEn, 1) && AllHold(ms, w)
    ensures WritesHighest(ram, writeAddr, writeData, writeEn, addrWidth, dataWidth, w)
  {
    var addrs, datas := Chunks(writeAddr, addrWidth), Chunks(writeData, dataWidth);
    WriteSideAgrees(ms, ram, addrs, datas, writeEn, addrWidth, dataWidth, w);
    forall k | 0 <= k < |writeEn| && w(writeEn[k]) && (forall l :: k < l < |writeEn| ==> !w(writeEn[l]))
      ensures CarriesPort(ram.addr2, writeAddr, k, addrWidth, w) && CarriesPort(ram.data2, writeData, k, dataWidth, w)
    {
      ChunkCarried(ram.addr2, writeAddr, k, addrWidth, w);
      ChunkCarried(ram.data2, writeData, k, dataWidth, w);
    }
  }

  /** The bus carries the port of the highest selector that is 1, and zeros if there is none. */
  ghost predicate CarriesHighest(bus: seq<Net>, signal: seq<Net>, selectors: seq<Net>, width: nat, w: Wires) {
    && (forall k :: 0 <= k < |selectors| && w(selectors[k])
                    && (forall l :: k < l < |selectors| ==> !w(selectors[l])) ==>
          CarriesPort(bus, signal, k, width, w))
    && ((forall k :: 0 <= k < |selectors| ==> !w(selectors[k])) ==> CarriesZeros(bus, w))
  }

  lemma {:induction false} MergedIsHighest(ms: seq<Mux>, bus: seq<Net>, signal: seq<Net>, selectors: seq<Net>,
                                           width: nat)
    requires width > 0 && |Chunks(signal, width)| == |selectors|
    requires Merges(ms, bus, Chunks(signal, width), selectors, width)
    ensures forall w: Wires :: AllHold(ms, w) ==> CarriesHighest(bus, signal, selectors, width, w)
  {
    forall w: Wires | AllHold(ms, w)
      ensures CarriesHighest(bus, signal, selectors, width, w)
    {
      var last := LastActive(selectors, w);
      forall k | 0 <= k < |selectors| && w(selectors[k]) && (forall l :: k < l < |selectors| ==> !w(selectors[l]))
        ensures CarriesPort(bus, signal, k, width, w)
      {
        assert last == k;
        ChunkCarried(bus, signal, k, width, w);
      }
    }
  }

  class Netlist {
    var muxes: seq<Mux>

    method SplitSignalList(signal: seq<Net>, width: nat) returns (chunks: seq<seq<Net>>)
      requires width > 0 && |signal| % width == 0
      ensures chunks == Chunks(signal, width)
    {
      if |signal| == width {
        assert signal[..width] == signal && signal[width..] == [];
        return [signal];
      }
      chunks := [];
      var offset := 0;
      while offset + width <= |signal|
        invariant 0 <= offset <= |signal| && Chunks(signal, width) == chunks + Chunks(signal[offset..], width)
        decreases |signal| - offset
      {
        assert signal[offset..][..width] == signal[offset..offset + width];
        assert signal[offset..][width..] == signal[offset + width..];
        chunks := chunks + [signal[offset..offset + width]];
        offset := offset + width;
      }
    }

    method MakeMux(select: Net, in0: seq<Net>, in1: seq<Net>) returns (out: seq<Net>)
      requires |in0| == |in1| && FeedForward(muxes)
      requires Before(select, |muxes|) && AllBefore(in0, |muxes|) && AllBefore(in1, |muxes|)
      modifies this
      ensures FeedForward(muxes) && AllBefore(out, |muxes|)
      ensures |out| == |in0| && muxes == old(muxes) + [Mux(select, in0, in1, out)]
      ensures forall j :: 0 <= j < |out| ==> out[j] == MuxOut(|old(muxes)|, j)
    {
      var mux := |muxes|;
      out := seq(|in0|, j requires 0 <= j < |in0| => MuxOut(mux, j));
      muxes := muxes + [Mux(select, in0, in1, out)];
    }

    /**
     * Merges ports into one, a later selector overriding an earlier one. A single port is handed through as
     * it is, whatever its selector.
     */
    method SplitCascadePort(signal: seq<Net>, selectors: seq<Net>, width: nat) returns (bus: seq<Net>)
      requires width > 0 && |signal| > 0
      requires |signal| != width ==> |signal| % width == 0 && |selectors| == |Chunks(signal, width)|
      requires FeedForward(muxes) && AllBefore(signal, |muxes|) && AllBefore(selectors, |muxes|)
      modifies this
      ensures FeedForward(muxes) && AllBefore(bus, |muxes|)
      ensures Grown(old(muxes), muxes) && |bus| == width
      ensures |signal| == width ==> bus == signal && muxes == old(muxes)
      ensures |signal| != width ==> Merges(muxes, bus, Chunks(signal, width), selectors, width)
      ensures |signal| != width ==> forall w: Wires :: AllHold(muxes, w) ==>
        CarriesHighest(bus, signal, selectors, width, w)
    {
      if |signal| == width {
        return signal;
      }
      var chunks := SplitSignalList(signal, width);
      bus := seq(width, _ => Pad);
      assert Merges(muxes, bus, chunks[..0], selectors[..0], width);
      var i := 0;
      while i < |chunks|
        invariant 0 <= i <= |chunks| && |bus| == width
        invariant Grown(old(muxes), muxes) && FeedForward(muxes) && AllBefore(bus, |muxes|)
        invariant Merges(muxes, bus, chunks[..i], selectors[..i], width)
      {
        ghost var before, input := muxes, bus;
        ChunkNets(signal, width, |old(muxes)|, i);
        bus := MakeMux(selectors[i], bus, chunks[i]);
        MergesOneMore(before, input, chunks, selectors, width, i, muxes[|before|]);
        i := i + 1;
      }
      assert chunks[..i] == chunks && selectors[..i] == selectors;
      MergedIsHighest(muxes, bus, signal, selectors, width);
    }

    /** One of the ports of a memory with n write ports. */
    method MergeWritePort(signal: seq<Net>, writeEn: seq<Net>, width: nat, n: nat) returns (bus: seq<Net>)
      requires n > 2 && width > 0 && |writeEn| == n && |signal| == n * width
      requires FeedForward(muxes) && AllBefore(signal, |muxes|) && AllBefore(writeEn, |muxes|)
      modifies this
      ensures FeedForward(muxes)
      ensures Grown(old(muxes), muxes) && |bus| == width && |Chunks(signal, width)| == n
      ensures Merges(muxes, bus, Chunks(signal, width), writeEn, width)
    {
      Divides(n, width);
      ChunkCount(signal, width, n);
      bus := SplitCascadePort(signal, writeEn, width);
    }

    /** The write side of a memory with n write ports, more than two. */
    method CreateWriteSide(writeAddr: seq<Net>, writeData: seq<Net>, writeEn: seq<Net>, addrWidth: nat,
                           dataWidth: nat, n: nat)
      returns (ram: DpRam)
      requires n > 2 && addrWidth > 0 && dataWidth > 0 && |writeEn| == n
      requires |writeAddr| == n * addrWidth && |writeData| == n * dataWidth
      requires FeedForward(muxes) && AllBefore(writeAddr + writeData + writeEn, |muxes|)
      modifies this
      ensures FeedForward(muxes)
      ensures |Chunks(writeAddr, addrWidth)| == |Chunks(writeData, dataWidth)| == n
      ensures Merges(muxes, ram.addr2, Chunks(writeAddr, addrWidth), writeEn, addrWidth)
      ensures Merges(muxes, ram.data2, Chunks(writeData, dataWidth), writeEn, dataWidth)
      ensures Merges(muxes, [ram.we2], seq(n, _ => [One]), writeEn, 1)
      ensures forall w: Wires :: AllHold(muxes, w) ==>
        WritesHighest(ram, writeAddr, writeData, writeEn, addrWidth, dataWidth, w)
    {
      PartsBefore(writeAddr, writeData, writeEn, |muxes|);
      var addr2 := MergeWritePort(writeAddr, writeEn, addrWidth, n);
      ghost var first := muxes;
      var data2 := MergeWritePort(writeData, writeEn, dataWidth, n);
      ghost var second := muxes;
      var vcc := seq(n, _ => One);
      var we2 := MergeWritePort(vcc, writeEn, 1, n);
      MergesKept(first, muxes, addr2, Chunks(writeAddr, addrWidth), writeEn, addrWidth);
      MergesKept(second, muxes, data2, Chunks(writeData, dataWidth), writeEn, dataWidth);
      SingleChunks(vcc);
      assert Chunks(vcc, 1) == seq(n, _ => [One]);
      assert we2 == [we2[0]];
      ram := DpRam(addr2, data2, we2[0]);
      forall w: Wires | AllHold(muxes, w)
        ensures WritesHighest(ram, writeAddr, writeData, writeEn, addrWidth, dataWidth, w)
      {
        WriteSideIsRight(muxes, ram, writeAddr, writeData, writeEn, addrWidth, dataWidth, w);
      }
    }
  }
}
