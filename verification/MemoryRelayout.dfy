/** Turning the pin layout of a memory cell into the layout of a block memory, and reading it back. */
module MemoryRelayout {
  import opened Bits

  /** A pin, or an empty slot. */
  datatype Slot = Empty | Held(pin: nat)

  function Held1(pins: seq<nat>): (s: seq<Slot>)
    ensures |s| == |pins| && forall k :: 0 <= k < |s| ==> s[k] == Held(pins[k])
  {
    seq(|pins|, k requires 0 <= k < |pins| => Held(pins[k]))
  }

  function Blank(n: nat): (s: seq<Slot>)
    ensures |s| == n && forall k :: 0 <= k < n ==> s[k] == Empty
  {
    seq(n, _ => Empty)
  }

  lemma {:induction false} HeldAppend(a: seq<nat>, b: seq<nat>)
    ensures Held1(a + b) == Held1(a) + Held1(b)
  {
  }

  // ----- which enable bits survive -----

  /** The first bit of each port of width d, among the first i bits. */
  function Firsts(bits: seq<nat>, d: nat, i: nat): seq<nat>
    requires i <= |bits| && d > 0
  {
    if i == 0 then [] else Firsts(bits, d, i - 1) + if (i - 1) % d == 0 then [bits[i - 1]] else []
  }

  function Others(bits: seq<nat>, d: nat, i: nat): seq<nat>
    requires i <= |bits| && d > 0
  {
    if i == 0 then [] else Others(bits, d, i - 1) + if (i - 1) % d == 0 then [] else [bits[i - 1]]
  }

  /** c is made of a and b. */
  ghost predicate MadeOf(c: seq<nat>, a: seq<nat>, b: seq<nat>) {
    multiset(a) + multiset(b) == multiset(c)
  }

  lemma {:induction false} TakeStep(bits: seq<nat>, i: nat)
    requires 0 < i <= |bits|
    ensures bits[..i] == bits[..i - 1] + [bits[i - 1]]
  {
  }

  lemma {:induction false} OneMoreBit(c: seq<nat>, a: seq<nat>, b: seq<nat>, x: nat, first: bool)
    requires MadeOf(c, a, b)
    ensures MadeOf(c + [x], a + if first then [x] else [], b + if first then [] else [x])
  {
    assert a + [] == a && b + [] == b;
  }

  lemma {:induction false} FirstsAndOthers(bits: seq<nat>, d: nat, i: nat)
    requires i <= |bits| && d > 0
    ensures MadeOf(bits[..i], Firsts(bits, d, i), Others(bits, d, i))
  {
    if i > 0 {
      TakeStep(bits, i);
      FirstsAndOthers(bits, d, i - 1);
      OneMoreBit(bits[..i - 1], Firsts(bits, d, i - 1), Others(bits, d, i - 1), bits[i - 1], (i - 1) % d == 0);
    }
  }

  lemma {:induction false} Step(n: nat, d: nat)
    requires n > 0
    ensures n * d == (n - 1) * d + d
  {
  }

  lemma {:induction false} Remainder(n: nat, d: nat, r: nat)
    requires r < d
    ensures (n * d + r) % d == r
  {
    ModUnique(n * d + r, d, n, r);
  }

  lemma {:induction false} FirstsAt(bits: seq<nat>, d: nat, n: nat, r: nat)
    requires d > 0 && r < d && n * d + r <= |bits|
    ensures |Firsts(bits, d, n * d + r)| == n + if r > 0 then 1 else 0
    ensures forall k :: 0 <= k < n ==> k * d < |bits| && Firsts(bits, d, n * d + r)[k] == bits[k * d]
    ensures r > 0 ==> Firsts(bits, d, n * d + r)[n] == bits[n * d]
    decreases n, r
  {
    var i := n * d + r;
    if r > 0 {
      FirstsAt(bits, d, n, r - 1);
      Remainder(n, d, r - 1);
    } else if n > 0 {
      Step(n, d);
      if d == 1 {
        FirstsAt(bits, d, n - 1, 0);
        Remainder(n - 1, d, 0);
      } else {
        FirstsAt(bits, d, n - 1, d - 1);
        Remainder(n - 1, d, d - 1);
      }
    }
  }

  // ----- the memory cell -----

  /** The pins of a memory cell, port by port. */
  datatype Ports = Ports(rdAddr: seq<nat>, rdClk: seq<nat>, rdEnable: seq<nat>, wrAddr: seq<nat>, wrClk: seq<nat>,
                         wrData: seq<nat>, wrEnable: seq<nat>)

  function Layout(p: Ports): seq<nat> {
    p.rdAddr + p.rdClk + p.rdEnable + p.wrAddr + p.wrClk + p.wrData + p.wrEnable
  }

  /** The sizes the source checks as it moves the pins; words have at least one bit. */
  predicate Sized(p: Ports, addrWidth: nat, dataWidth: nat, rdPorts: nat, wrPorts: nat) {
    && |p.rdAddr| == rdPorts * addrWidth && |p.rdClk| == rdPorts && |p.rdEnable| == rdPorts
    && |p.wrAddr| == wrPorts * addrWidth && |p.wrData| == |p.wrEnable| == wrPorts * dataWidth
    && dataWidth >= 1
  }

  datatype Bram = Bram(clk: Slot, readAddr: seq<Slot>, readEn: seq<Slot>, writeAddr: seq<Slot>, writeData: seq<Slot>,
                       writeEn: seq<Slot>)

  function FirstEnables(p: Ports, dataWidth: nat): seq<nat>
    requires dataWidth >= 1
  {
    Firsts(p.wrEnable, dataWidth, |p.wrEnable|)
  }

  /** The first write clock, if there is one. */
  function FirstClock(p: Ports): seq<nat> {
    if p.wrClk == [] then [] else [p.wrClk[0]]
  }

  function OtherClocks(p: Ports): seq<nat> {
    if p.wrClk == [] then [] else p.wrClk[1..]
  }

  /** The pins of the new node behind its clock, in order. */
  function Moved(p: Ports, dataWidth: nat): seq<nat>
    requires dataWidth >= 1
  {
    p.rdAddr + p.rdEnable + p.wrAddr + p.wrData + FirstEnables(p, dataWidth)
  }

  /** The clock slot of the new node: the first write clock, and empty without one. */
  function ClockSlot(p: Ports): Slot {
    if p.wrClk == [] then Empty else Held(p.wrClk[0])
  }

  /** The slots of the new node, in order. */
  function NewLayout(p: Ports, dataWidth: nat): seq<Slot>
    requires dataWidth >= 1
  {
    [ClockSlot(p)] + Held1(Moved(p, dataWidth))
  }

  /** The pins that are deleted, in order. */
  function Dropped(p: Ports, dataWidth: nat): seq<nat>
    requires dataWidth >= 1
  {
    OtherClocks(p) + p.rdClk + Others(p.wrEnable, dataWidth, |p.wrEnable|)
  }

  /** The pins in a list of slots. */
  function PinsIn(slots: seq<Slot>): seq<nat> {
    if slots == [] then [] else (if slots[0].Held? then [slots[0].pin] else []) + PinsIn(slots[1..])
  }

  lemma {:induction false} PinsHeld(pins: seq<nat>)
    ensures PinsIn(Held1(pins)) == pins
  {
    if pins != [] {
      PinsHeld(pins[1..]);
      assert Held1(pins)[1..] == Held1(pins[1..]);
    }
  }

  lemma {:induction false} PinsOfLayout(p: Ports, dataWidth: nat)
    requires dataWidth >= 1
    ensures PinsIn(NewLayout(p, dataWidth)) == FirstClock(p) + Moved(p, dataWidth)
  {
    PinsHeld(Moved(p, dataWidth));
    assert NewLayout(p, dataWidth)[1..] == Held1(Moved(p, dataWidth));
  }

  /** Every pin of the old node is on the new node or deleted, and none is both or twice. */
  lemma {:induction false} EveryPinAccountedFor(p: Ports, dataWidth: nat)
    requires dataWidth >= 1
    ensures multiset(PinsIn(NewLayout(p, dataWidth))) + multiset(Dropped(p, dataWidth)) == multiset(Layout(p))
  {
    PinsOfLayout(p, dataWidth);
    FirstsAndOthers(p.wrEnable, dataWidth, |p.wrEnable|);
    assert p.wrEnable[..|p.wrEnable|] == p.wrEnable;
    assert FirstClock(p) + OtherClocks(p) == p.wrClk;
    assert multiset(p.wrClk) == multiset(FirstClock(p)) + multiset(OtherClocks(p));
  }

  // ----- where the ports are -----

  datatype Offsets = Offsets(rdClk: nat, rdEnable: nat, wrAddr: nat, wrClk: nat, wrData: nat, wrEnable: nat, end: nat)

  function PortOffsets(p: Ports): Offsets {
    var a := |p.rdAddr|;
    var b := a + |p.rdClk|;
    var c := b + |p.rdEnable|;
    var d := c + |p.wrAddr|;
    var e := d + |p.wrClk|;
    var f := e + |p.wrData|;
    Offsets(a, b, c, d, e, f, f + |p.wrEnable|)
  }

  /** The slots from lo on hold these pins. */
  ghost predicate HoldsAt(cell: seq<Slot>, lo: nat, pins: seq<nat>) {
    lo + |pins| <= |cell| && forall k :: 0 <= k < |pins| ==> cell[lo + k] == Held(pins[k])
  }

  /** The list is made of the cell's ports, one behind the other. */
  ghost predicate Parts(p: Ports, all: seq<nat>) {
    var o := PortOffsets(p);
    && |all| == o.end
    && all[..o.rdClk] == p.rdAddr && all[o.rdClk..o.rdEnable] == p.rdClk && all[o.rdEnable..o.wrAddr] == p.rdEnable
    && all[o.wrAddr..o.wrClk] == p.wrAddr && all[o.wrClk..o.wrData] == p.wrClk && all[o.wrData..o.wrEnable] == p.wrData
    && all[o.wrEnable..] == p.wrEnable
  }

  lemma {:induction false} LayoutParts(p: Ports)
    ensures Parts(p, Layout(p))
  {
  }

  /** Only slots from lo up to hi have changed. */
  ghost predicate Elsewhere(was: seq<Slot>, now: seq<Slot>, lo: nat, hi: nat) {
    |now| == |was| && forall k :: 0 <= k < |now| && !(lo <= k < hi) ==> now[k] == was[k]
  }

  /** From slot `done` on, every pin is still in its place but for the write clocks. */
  ghost predicate Kept(all: seq<nat>, cell: seq<Slot>, o: Offsets, done: nat) {
    |cell| == |all| && forall k :: done <= k < |cell| && !(o.wrClk <= k < o.wrData) ==> cell[k] == Held(all[k])
  }

  lemma {:induction false} KeptOn(all: seq<nat>, before: seq<Slot>, now: seq<Slot>, o: Offsets, done: nat, lo: nat,
                                  hi: nat)
    requires Kept(all, before, o, done) && Elsewhere(before, now, lo, hi) && done <= hi
    ensures Kept(all, now, o, hi)
  {
  }

  lemma {:induction false} KeptHolds(all: seq<nat>, cell: seq<Slot>, o: Offsets, done: nat, lo: nat, hi: nat)
    requires Kept(all, cell, o, done) && done <= lo <= hi <= |all| && (hi <= o.wrClk || o.wrData <= lo)
    ensures HoldsAt(cell, lo, all[lo..hi])
  {
  }

  lemma {:induction false} AllHolds(all: seq<nat>, lo: nat, hi: nat)
    requires lo <= hi <= |all|
    ensures HoldsAt(Held1(all), lo, all[lo..hi])
  {
  }

  function Widths(p: Ports): seq<nat> {
    [|p.rdAddr|, |p.rdClk|, |p.rdEnable|, |p.wrAddr|, |p.wrClk|, |p.wrData|, |p.wrEnable|]
  }

  lemma {:induction false} KeptFirst(all: seq<nat>, was: seq<Slot>, now: seq<Slot>, o: Offsets)
    requires was == Held1(all) && Elsewhere(was, now, o.wrClk, o.wrData)
    ensures Kept(all, now, o, 0)
  {
  }

  lemma {:induction false} NewLayoutHeld(p: Ports, dataWidth: nat)
    requires dataWidth >= 1
    ensures NewLayout(p, dataWidth) ==
      [ClockSlot(p)] + Held1(p.rdAddr) + Held1(p.rdEnable) + Held1(p.wrAddr) + Held1(p.wrData)
      + Held1(FirstEnables(p, dataWidth))
  {
    var b := p.rdAddr + p.rdEnable;
    var c := b + p.wrAddr;
    var d := c + p.wrData;
    HeldAppend(p.rdAddr, p.rdEnable);
    HeldAppend(b, p.wrAddr);
    HeldAppend(c, p.wrData);
    HeldAppend(d, FirstEnables(p, dataWidth));
  }

  lemma {:induction false} FirstsGrow(bits: seq<nat>, d: nat, i: nat, j: nat)
    requires d > 0 && i <= j <= |bits|
    ensures |Firsts(bits, d, i)| <= |Firsts(bits, d, j)|
  {
    if i < j {
      FirstsGrow(bits, d, i, j - 1);
    }
  }

  class Relayout {
    var cell: seq<Slot>       // input pins of the memory cell
    var bram: seq<Slot>       // input pins of the new node
    var deleted: seq<nat>

    method RemapPin(from: nat, to: nat)
      requires from < |cell| && to < |bram|
      modifies this
      ensures cell == old(cell)[from := Empty] && bram == old(bram)[to := old(cell)[from]] && deleted == old(deleted)
    {
      bram := bram[to := cell[from]];
      cell := cell[from := Empty];
    }

    method DeletePin(from: nat)
      requires from < |cell| && cell[from].Held?
      modifies this
      ensures cell == old(cell)[from := Empty] && bram == old(bram) && deleted == old(deleted) + [old(cell)[from].pin]
    {
      deleted := deleted + [cell[from].pin];
      cell := cell[from := Empty];
    }

    /** Appends a port of new slots and moves the pins of an old port into it. */
    method MovePort(offset: nat, width: nat, newOffset: nat, ghost pins: seq<nat>)
      requires newOffset == |bram| && |pins| == width && HoldsAt(cell, offset, pins)
      modifies this
      ensures bram == old(bram) + Held1(pins) && deleted == old(deleted)
      ensures Elsewhere(old(cell), cell, offset, offset + width)
    {
      bram := bram + Blank(width);
      var i := 0;
      while i < width
        invariant 0 <= i <= width && |cell| == |old(cell)| && deleted == old(deleted) && |bram| == newOffset + width
        invariant forall k :: 0 <= k < |cell| && !(offset <= k < offset + i) ==> cell[k] == old(cell)[k]
        invariant bram[..newOffset] == old(bram)
        invariant forall k :: 0 <= k < i ==> bram[newOffset + k] == Held(pins[k])
      {
        assert cell[i + offset] == old(cell)[offset + i] == Held(pins[i]);
        RemapPin(i + offset, i + newOffset);
        i := i + 1;
      }
      assert bram == old(bram) + Held1(pins);
    }

    /** Deletes the pins of an old port from its i-th one on. */
    method DeletePort(offset: nat, width: nat, first: nat, ghost pins: seq<nat>)
      requires first <= width == |pins| && HoldsAt(cell, offset + first, pins[first..]) && offset + width <= |cell|
      modifies this
      ensures bram == old(bram) && deleted == old(deleted) + pins[first..]
      ensures Elsewhere(old(cell), cell, offset, offset + width)
    {
      var i := first;
      while i < width
        invariant first <= i <= width && |cell| == |old(cell)| && bram == old(bram)
        invariant forall k :: 0 <= k < |cell| && !(offset + first <= k < offset + i) ==> cell[k] == old(cell)[k]
        invariant deleted == old(deleted) + pins[first..i]
      {
        assert pins[first..][i - first] == pins[i];
        assert cell[offset + i] == old(cell)[offset + first + (i - first)];
        DeletePin(i + offset);
        assert pins[first..i + 1] == pins[first..i] + [pins[i]];
        i := i + 1;
      }
      assert pins[first..width] == pins[first..];
    }

    /** The first write clock is kept, the others go. */
    method MoveClock(offset: nat, width: nat, ghost p: Ports)
      requires bram == [] && |p.wrClk| == width && HoldsAt(cell, offset, p.wrClk)
      modifies this
      ensures bram == [ClockSlot(p)] && deleted == old(deleted) + OtherClocks(p)
      ensures Elsewhere(old(cell), cell, offset, offset + width)
    {
      bram := bram + Blank(1);
      if width > 0 {
        assert cell[offset + 0] == Held(p.wrClk[0]);
        RemapPin(0 + offset, 0);
        assert HoldsAt(cell, offset + 1, p.wrClk[1..]) by {
          forall k | 0 <= k < |p.wrClk[1..]|
            ensures cell[offset + 1 + k] == Held(p.wrClk[1..][k])
          {
            assert old(cell)[offset + (k + 1)] == Held(p.wrClk[k + 1]);
          }
        }
        DeletePort(offset, width, 1, p.wrClk);
      }
    }

    /** Of each port's enable bits the first is kept. */
    method MoveEnables(offset: nat, width: nat, newOffset: nat, dataWidth: nat, wrPorts: nat, ghost pins: seq<nat>)
      requires newOffset == |bram| && |pins| == width == wrPorts * dataWidth && HoldsAt(cell, offset, pins)
        && dataWidth >= 1
      modifies this
      ensures bram == old(bram) + Held1(Firsts(pins, dataWidth, width))
      ensures deleted == old(deleted) + Others(pins, dataWidth, width)
    {
      bram := bram + Blank(wrPorts);
      var next := newOffset;
      var i := 0;
      FirstsAt(pins, dataWidth, wrPorts, 0);
      while i < width
        invariant 0 <= i <= width && |cell| == |old(cell)|
        invariant |bram| == newOffset + |Firsts(pins, dataWidth, width)|
        invariant next <= |bram| && next == newOffset + |Firsts(pins, dataWidth, i)|
        invariant forall k :: offset + i <= k < |cell| ==> cell[k] == old(cell)[k]
        invariant bram[..next] == old(bram) + Held1(Firsts(pins, dataWidth, i))
        invariant deleted == old(deleted) + Others(pins, dataWidth, i)
      {
        assert cell[i + offset] == old(cell)[offset + i] == Held(pins[i]);
        FirstsGrow(pins, dataWidth, i + 1, width);
        if i % dataWidth == 0 {
          ghost var before := bram;
          RemapPin(i + offset, next);
          assert bram[..next + 1] == before[..next] + [Held(pins[i])];
          HeldAppend(Firsts(pins, dataWidth, i), [pins[i]]);
          next := next + 1;
        } else {
          DeletePin(i + offset);
        }
        i := i + 1;
      }
      assert bram == bram[..next];
    }

    /** Moves the next port of an otherwise untouched rest. */
    method MoveNext(offset: nat, width: nat, newOffset: nat, ghost all: seq<nat>, ghost o: Offsets, ghost done: nat)
      requires newOffset == |bram| && Kept(all, cell, o, done) && offset + width <= |all|
      requires done <= offset && (offset + width <= o.wrClk || o.wrData <= offset)
      modifies this
      ensures bram == old(bram) + Held1(all[offset..offset + width]) && deleted == old(deleted)
      ensures Kept(all, cell, o, offset + width)
    {
      KeptHolds(all, cell, o, done, offset, offset + width);
      ghost var before := cell;
      MovePort(offset, width, newOffset, all[offset..offset + width]);
      KeptOn(all, before, cell, o, done, offset, offset + width);
    }

    method DropNext(offset: nat, width: nat, ghost all: seq<nat>, ghost o: Offsets)
      requires Kept(all, cell, o, offset) && offset + width <= |all| && offset + width <= o.wrClk
      modifies this
      ensures bram == old(bram) && deleted == old(deleted) + all[offset..offset + width]
      ensures Kept(all, cell, o, offset + width)
    {
      KeptHolds(all, cell, o, offset, offset, offset + width);
      ghost var before, pins := cell, all[offset..offset + width];
      assert pins[0..] == pins;
      DeletePort(offset, width, 0, pins);
      KeptOn(all, before, cell, o, offset, offset, offset + width);
    }

    method MoveReadPorts(ghost p: Ports, ra: nat, rc: nat, re: nat, ghost all: seq<nat>)
      requires ra == |p.rdAddr| && rc == |p.rdClk| && re == |p.rdEnable|
      requires Parts(p, all) && Kept(all, cell, PortOffsets(p), 0) && |bram| == 1
      modifies this
      ensures bram == old(bram) + Held1(p.rdAddr) + Held1(p.rdEnable) && deleted == old(deleted) + p.rdClk
      ensures Kept(all, cell, PortOffsets(p), ra + rc + re)
    {
      ghost var o := PortOffsets(p);
      var newOffset := 1;
      MoveNext(0, ra, newOffset, all, o, 0);
      newOffset := newOffset + ra;
      DropNext(ra, rc, all, o);
      MoveNext(ra + rc, re, newOffset, all, o, ra + rc);
    }

    method MoveWriteAddr(ghost p: Ports, offset: nat, wa: nat, ghost all: seq<nat>)
      requires offset == PortOffsets(p).wrAddr && wa == |p.wrAddr|
      requires Parts(p, all) && Kept(all, cell, PortOffsets(p), offset)
      modifies this
      ensures bram == old(bram) + Held1(p.wrAddr) && deleted == old(deleted)
      ensures Kept(all, cell, PortOffsets(p), PortOffsets(p).wrClk)
    {
      MoveNext(offset, wa, |bram|, all, PortOffsets(p), offset);
    }

    method MoveWriteData(ghost p: Ports, offset: nat, wd: nat, ghost all: seq<nat>)
      requires offset == PortOffsets(p).wrData && wd == |p.wrData|
      requires Parts(p, all) && Kept(all, cell, PortOffsets(p), PortOffsets(p).wrClk)
      modifies this
      ensures bram == old(bram) + Held1(p.wrData) && deleted == old(deleted)
      ensures Kept(all, cell, PortOffsets(p), PortOffsets(p).wrEnable)
    {
      MoveNext(offset, wd, |bram|, all, PortOffsets(p), PortOffsets(p).wrClk);
    }

    method MoveLast(ghost p: Ports, offset: nat, we: nat, dataWidth: nat, wrPorts: nat, ghost all: seq<nat>)
      requires offset == PortOffsets(p).wrEnable && we == |p.wrEnable| == wrPorts * dataWidth && dataWidth >= 1
      requires Parts(p, all) && Kept(all, cell, PortOffsets(p), offset)
      modifies this
      ensures bram == old(bram) + Held1(FirstEnables(p, dataWidth))
      ensures deleted == old(deleted) + Others(p.wrEnable, dataWidth, we)
    {
      KeptHolds(all, cell, PortOffsets(p), offset, offset, |all|);
      assert all[offset..|all|] == p.wrEnable;
      MoveEnables(offset, we, |bram|, dataWidth, wrPorts, p.wrEnable);
    }

    method YmemToBram(ghost p: Ports, addrWidth: nat, dataWidth: nat, rdPorts: nat, wrPorts: nat, widths: seq<nat>)
      requires Sized(p, addrWidth, dataWidth, rdPorts, wrPorts) && widths == Widths(p)
      requires cell == Held1(Layout(p)) && bram == [] && deleted == []
      modifies this
      ensures bram == NewLayout(p, dataWidth) && deleted == Dropped(p, dataWidth)
    {
      var ra, rc, re, wa, wc, wd, we := widths[0], widths[1], widths[2], widths[3], widths[4], widths[5], widths[6];
      ghost var all, o := Layout(p), PortOffsets(p);
      LayoutParts(p);
      AllHolds(all, o.wrClk, o.wrData);
      ghost var before := cell;
      MoveClock(ra + rc + re + wa, wc, p);
      assert deleted == OtherClocks(p);
      KeptFirst(all, before, cell, o);
      MoveReadPorts(p, ra, rc, re, all);
      MoveWriteAddr(p, ra + rc + re, wa, all);
      MoveWriteData(p, ra + rc + re + wa + wc, wd, all);
      MoveLast(p, ra + rc + re + wa + wc + wd, we, dataWidth, wrPorts, all);
      NewLayoutHeld(p, dataWidth);
    }
  }

  // ----- reading the new node back -----

  method TakePort(pins: seq<Slot>, offset: nat, width: nat) returns (port: seq<Slot>)
    requires offset + width <= |pins|
    ensures port == pins[offset..offset + width]
  {
    port := [];
    var i := 0;
    while i < width
      invariant 0 <= i <= width && port == pins[offset..offset + i]
    {
      port := port + [pins[i + offset]];
      i := i + 1;
    }
  }

  /** widths are those of the address, enable and data ports, in the order of the node. */
  method InitBlockMemory(pins: seq<Slot>, widths: seq<nat>) returns (b: Bram)
    requires |widths| == 5 && |pins| == 1 + widths[0] + widths[1] + widths[2] + widths[3] + widths[4]
    ensures [b.clk] + b.readAddr + b.readEn + b.writeAddr + b.writeData + b.writeEn == pins
    ensures [|b.readAddr|, |b.readEn|, |b.writeAddr|, |b.writeData|, |b.writeEn|] == widths
  {
    var clk := pins[0];
    var offset := 1;
    var readAddr := TakePort(pins, offset, widths[0]);
    offset := offset + widths[0];
    var readEn := TakePort(pins, offset, widths[1]);
    offset := offset + widths[1];
    var writeAddr := TakePort(pins, offset, widths[2]);
    offset := offset + widths[2];
    var writeData := TakePort(pins, offset, widths[3]);
    offset := offset + widths[3];
    var writeEn := TakePort(pins, offset, widths[4]);
    b := Bram(clk, readAddr, readEn, writeAddr, writeData, writeEn);
  }

  /** A list cut at the right places gives back its parts. */
  lemma {:induction false} PartsUnique(x: seq<Slot>, xs: seq<Slot>, y: seq<Slot>, ys: seq<Slot>)
    requires x + xs == y + ys && |x| == |y|
    ensures x == y && xs == ys
  {
    assert (x + xs)[..|x|] == x && (y + ys)[..|y|] == y;
    assert (x + xs)[|x|..] == xs && (y + ys)[|y|..] == ys;
  }

  /**
   * What the block memory has of the cell: addresses, data and read enables in order, one clock if the
   * cell had one, and the first enable bit of each write port.
   */
  ghost predicate ReadBack(p: Ports, dataWidth: nat, wrPorts: nat, b: Bram) {
    && b.clk == (if p.wrClk == [] then Empty else Held(p.wrClk[0])) && b.readAddr == Held1(p.rdAddr)
      && b.readEn == Held1(p.rdEnable)
    && b.writeAddr == Held1(p.wrAddr) && b.writeData == Held1(p.wrData)
    && |b.writeEn| == wrPorts
    && forall k :: 0 <= k < wrPorts ==>
      k * dataWidth < |p.wrEnable| && b.writeEn[k] == Held(p.wrEnable[k * dataWidth])
  }

  /** Cutting the new layout at the widths of its ports gives all of that back. */
  lemma {:induction false} RelayoutRoundTrip(p: Ports, addrWidth: nat, dataWidth: nat, rdPorts: nat, wrPorts: nat,
                                             b: Bram)
    requires Sized(p, addrWidth, dataWidth, rdPorts, wrPorts)
    requires [b.clk] + b.readAddr + b.readEn + b.writeAddr + b.writeData + b.writeEn == NewLayout(p, dataWidth)
    requires |b.readAddr| == |p.rdAddr| && |b.readEn| == rdPorts
    requires |b.writeAddr| == |p.wrAddr| && |b.writeData| == |p.wrData|
    ensures ReadBack(p, dataWidth, wrPorts, b)
  {
    NewLayoutHeld(p, dataWidth);
    var e := Held1(FirstEnables(p, dataWidth));
    var x1, y1 := [b.clk] + b.readAddr, [ClockSlot(p)] + Held1(p.rdAddr);
    var x2, y2 := x1 + b.readEn, y1 + Held1(p.rdEnable);
    var x3, y3 := x2 + b.writeAddr, y2 + Held1(p.wrAddr);
    var x4, y4 := x3 + b.writeData, y3 + Held1(p.wrData);
    PartsUnique(x4, b.writeEn, y4, e);
    PartsUnique(x3, b.writeData, y3, Held1(p.wrData));
    PartsUnique(x2, b.writeAddr, y2, Held1(p.wrAddr));
    PartsUnique(x1, b.readEn, y1, Held1(p.rdEnable));
    PartsUnique([b.clk], b.readAddr, [ClockSlot(p)], Held1(p.rdAddr));
    assert [b.clk][0] == b.clk;
    FirstsAt(p.wrEnable, dataWidth, wrPorts, 0);
  }

  /** Relays the cell out and reads the new node, which has one enable bit for each write port. */
  method RelayoutAndRead(r: Relayout, ghost p: Ports, addrWidth: nat, dataWidth: nat, rdPorts: nat, wrPorts: nat,
                         widths: seq<nat>)
    returns (b: Bram)
    requires Sized(p, addrWidth, dataWidth, rdPorts, wrPorts) && widths == Widths(p)
    requires r.cell == Held1(Layout(p)) && r.bram == [] && r.deleted == []
    modifies r
    ensures ReadBack(p, dataWidth, wrPorts, b)
    ensures multiset(PinsIn(r.bram)) + multiset(r.deleted) == multiset(Layout(p))
  {
    r.YmemToBram(p, addrWidth, dataWidth, rdPorts, wrPorts, widths);
    NewLayoutHeld(p, dataWidth);
    FirstsAt(p.wrEnable, dataWidth, wrPorts, 0);
    b := InitBlockMemory(r.bram, [widths[0], widths[2], widths[3], widths[5], wrPorts]);
    RelayoutRoundTrip(p, addrWidth, dataWidth, rdPorts, wrPorts, b);
    EveryPinAccountedFor(p, dataWidth);
  }
}
