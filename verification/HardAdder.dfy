/** Splitting an adder into a chain of hard adder cells. */
module HardAdder {
  import opened Bits

  /** A net, named by the pin that drives it; Null is a pin slot nothing is connected to yet. */
  datatype Net =
    | Null
    | Vcc
    | Gnd
    | Pad
    | A(bit: nat)
    | B(bit: nat)
    | Cin
    | Cout(cell: nat)
    | Sum(cell: nat, slot: nat)

  type Wires = Net -> bool

  function Max(x: nat, y: nat): nat {
    if x >= y then x else y
  }

  /** The position of slot j of cell i in the chain. */
  function Pos(s: nat, i: nat, j: nat): nat {
    i * s + j
  }

  function IndexFrom(width: nat, s: nat, offset: nat, base: nat, first: bool, j: nat): int
    requires offset <= 1 && j < s
  {
    var current := width + offset - base;
    if current >= s then if first && offset == 1 then j - 1 else j + base - offset
    else if current <= 0 then -1
    else if first then if j < current then j - 1 else -1
    else if j < current then j + base - 1
    else -1
  }

  /** The operand bit init_split_adder puts into slot j of cell i, or -1 for an empty slot. */
  function InitIndex(width: nat, s: nat, offset: nat, i: nat, j: nat): int
    requires offset <= 1 && j < s
  {
    IndexFrom(width, s, offset, i * s, i == 0, j)
  }

  function PortNet(isA: bool, k: int): Net {
    if k < 0 then Null else if isA then A(k) else B(k)
  }

  predicate IsZero(n: Net) {
    n == Gnd || n == Pad
  }

  /** Cells a node of operand widths a and b is split into. */
  function CellCount(a: nat, b: nat, s: nat, offset: nat): nat
    requires s > 0
  {
    var counta, countb := (a + 1) / s + offset, (b + 1) / s + offset;
    if counta >= countb then counta else countb
  }

  /** A slot after wiring: an operand bit, the dummy one of the first slot, or a zero. */
  ghost predicate SlotWired(net: Net, isA: bool, width: nat, s: nat, offset: nat, i: nat, j: nat)
    requires offset <= 1 && j < s
  {
    var k := InitIndex(width, s, offset, i, j);
    if k >= 0 then net == PortNet(isA, k)
    else if offset == 1 && isA && i == 0 && j == 0 then net == Vcc
    else IsZero(net)
  }

  /** Like SlotWired, for a slot that may still be empty and then gets the pad. */
  ghost predicate SlotTied(net: Net, isA: bool, width: nat, s: nat, offset: nat, i: nat, j: nat)
    requires offset <= 1 && j < s
  {
    SlotWired(if net == Null then Pad else net, isA, width, s, offset, i, j)
  }

  ghost predicate GroundedSlotsFree(a: nat, b: nat, s: nat, offset: nat, count: nat) {
    && s >= 1 && offset <= 1 && count >= 1
    && InitIndex(a, s, offset, count - 1, 0) < 0 && InitIndex(b, s, offset, count - 1, 0) < 0
    && (offset == 1 ==> count > 1)
  }

  /** Neighbouring multiples of the cell size. */
  lemma {:induction false} PosSteps(s: nat, q: nat)
    requires s >= 1
    ensures Pos(s, q, 0) == q * s && Pos(s, q + 1, 0) == Pos(s, q, 0) + s
    ensures q >= 1 ==> Pos(s, q - 1, 0) == Pos(s, q, 0) - s
    ensures q >= 1 ==> Pos(s, q, 0) >= s
    ensures s == 1 ==> Pos(s, q, 0) == q
  {
    if q >= 1 {
      MulSign(q, s);
    }
  }

  /** What a chain of q full cells, and one more for the dummy, has room for. */
  ghost predicate Reaches(w: nat, s: nat, offset: nat, c: nat) {
    && (c >= 1 ==> Pos(s, c - 1, 0) <= w + offset)
    && (offset == 1 ==> c >= 1 && Pos(s, c, 0) >= w + 2)
    && (c >= 2 ==> s <= w + 1)
    && (offset == 0 && c == 1 ==> s <= w + 1)
    && (s == 1 ==> c == w + 1 + offset)
  }

  lemma {:induction false} ReachFrom(w: nat, s: nat, q: nat, offset: nat)
    requires w >= 1 && s >= 1 && offset <= 1 && Pos(s, q, 0) <= w + 1 < Pos(s, q, 0) + s
    ensures Reaches(w, s, offset, q + offset)
  {
    PosSteps(s, q);
  }

  lemma {:induction false} PosBounds(s: nat, i: nat, j: nat)
    requires s >= 1
    ensures Pos(s, i, s) == Pos(s, i + 1, 0)
    ensures i < j ==> Pos(s, i, s) <= Pos(s, j, 0)
    ensures i >= 1 ==> Pos(s, i, 0) >= s
    ensures j >= 1 ==> Pos(s, j, 0) >= s
    ensures Pos(s, j, s) == Pos(s, j + 1, 0)
  {
    if i < j {
      assert (j - i) * s >= s by {
        MulSign(j - i, s);
      }
      assert j * s == i * s + (j - i) * s;
    }
    if i >= 1 {
      MulSign(i, s);
    }
    if j >= 1 {
      MulSign(j, s);
    }
  }

  ghost predicate IsSumAt(net: Net, s: nat, count: nat, t: nat) {
    net.Sum? && net.cell < count && net.slot < s && Pos(s, net.cell, net.slot) == t
  }

  lemma {:induction false} DivMonotone(x: nat, y: nat, s: nat)
    requires s >= 1
    ensures x <= y ==> x / s <= y / s
  {
    assert x == s * (x / s) + x % s && y == s * (y / s) + y % s;
    assert (x / s - y / s) * s == s * (x / s) - s * (y / s);
    MulSign(x / s - y / s, s);
  }

  /** The chain has room for the widest operand and its carry, and one cell fewer would not be too long. */
  lemma {:induction false} CountBounds(a: nat, b: nat, s: nat, offset: nat)
    requires s >= 1 && offset <= 1
    ensures CellCount(a, b, s, offset) == (Max(a, b) + 1) / s + offset
    ensures ((Max(a, b) + 1) / s) * s <= Max(a, b) + 1 < ((Max(a, b) + 1) / s) * s + s
  {
    DivMonotone(a + 1, b + 1, s);
    DivMonotone(b + 1, a + 1, s);
    var w := Max(a, b) + 1;
    assert w == s * (w / s) + w % s;
    MulCommutes(s, w / s);
  }

  lemma {:induction false} ChainReach(a: nat, b: nat, s: nat, offset: nat)
    requires a >= 1 && b >= 1 && s >= 1 && offset <= 1
    ensures Reaches(Max(a, b), s, offset, CellCount(a, b, s, offset))
  {
    CountBounds(a, b, s, offset);
    ReachFrom(Max(a, b), s, (Max(a, b) + 1) / s, offset);
  }

  class AdderChain {
    const a: nat
    const b: nat
    const s: nat
    const offset: nat
    const count: nat
    const pins: array2<Net>    // one row per cell: s pins of a, s pins of b, carry in
    const driver: array<Net>   // what drives each output pin of the node; Null while still on the old node

    ghost predicate Shape()
      reads this
    {
      && a >= 1 && b >= 1 && s >= 1 && offset <= 1 && count >= 1
      && pins.Length0 == count && pins.Length1 == 2 * s + 1
      && driver as object != pins
    }

    constructor (a: nat, b: nat, s: nat, offset: nat, count: nat, outs: nat)
      requires a >= 1 && b >= 1 && s >= 1 && offset <= 1 && count >= 1
      ensures this.a == a && this.b == b && this.s == s && this.offset == offset && this.count == count
      ensures Shape() && fresh(pins) && fresh(driver) && driver.Length == outs
      ensures forall k :: 0 <= k < outs ==> driver[k] == Null
    {
      this.a, this.b, this.s, this.offset, this.count := a, b, s, offset, count;
      pins := new Net[count, 2 * s + 1]((i, j) => Null);
      driver := new Net[outs](i => Null);
    }

    function InitNet(isA: bool, i: nat, j: nat): Net
      requires offset <= 1 && j < s
    {
      PortNet(isA, InitIndex(if isA then a else b, s, offset, i, j))
    }

    /** Fills the s pins of one port of cell index from the operand pins of the node. */
    method InitPort(isA: bool, index: nat)
      requires Shape() && index < count
      modifies pins
      ensures var col, width := if isA then 0 else s, if isA then a else b;
        forall i, j :: 0 <= i < count && 0 <= j < 2 * s + 1 ==>
          pins[i, j] == if i == index && col <= j < col + s then InitNet(isA, i, j - col) else old(pins[i, j])
    {
      var col, width := if isA then 0 else s, if isA then a else b;
      var current := width + offset - s * index;
      var flag, part := 0, 0;
      if current >= s {
      } else if current <= 0 {
        flag := 1;
      } else {
        part := current;
        flag := 2;
      }
      var i := 0;
      while i < s
        invariant 0 <= i <= s
        invariant forall r, j :: 0 <= r < count && 0 <= j < 2 * s + 1 ==>
          pins[r, j] == if r == index && col <= j < col + i then InitNet(isA, r, j - col) else old(pins[r, j])
      {
        if flag == 1 {
          pins[index, col + i] := Null;
        } else if flag == 2 {
          if index == 0 {
            pins[index, col + i] := if 1 <= i < part then PortNet(isA, i - 1) else Null;
          } else {
            pins[index, col + i] := if i < part then PortNet(isA, i + index * s - 1) else Null;
          }
        } else if index == 0 && offset == 1 {
          pins[index, col + i] := if i == 0 then Null else PortNet(isA, i - 1);
        } else {
          pins[index, col + i] := PortNet(isA, i + index * s - offset);
        }
        i := i + 1;
      }
    }

    /** Every operand slot of every cell still holds what init_split_adder put there. */
    ghost predicate Initialised(cells: nat)
      requires Shape() && cells <= count
      reads this, pins
    {
      forall i, j :: 0 <= i < cells && 0 <= j < s ==>
        pins[i, j] == InitNet(true, i, j) && pins[i, s + j] == InitNet(false, i, j)
    }

    method InitSplitAdders()
      requires Shape()
      modifies pins
      ensures Initialised(count)
    {
      var i := 0;
      while i < count
        invariant 0 <= i <= count && Initialised(i)
      {
        InitPort(true, i);
        InitPort(false, i);
        pins[i, 2 * s] := Null;
        i := i + 1;
      }
    }

    /** If split_adder grounds the first slots of the last cell, they are empty ones. */
    ghost predicate GroundingSafe()
      requires Shape()
      reads this
    {
      (a + 1) % s == 0 && (b + 1) % s == 0 ==> GroundedSlotsFree(a, b, s, offset, count)
    }

    ghost predicate OperandsWired()
      requires Shape()
      reads this, pins
    {
      forall i, j :: 0 <= i < count && 0 <= j < s ==>
        SlotWired(pins[i, j], true, a, s, offset, i, j) && SlotWired(pins[i, s + j], false, b, s, offset, i, j)
    }

    ghost predicate CarriesWired(cin: Net)
      requires Shape()
      reads this, pins
    {
      forall i :: 0 <= i < count ==> pins[i, 2 * s] == if i == 0 then cin else Cout(i - 1)
    }

    function TiedNet(isA: bool, i: nat, j: nat): Net
      requires Shape() && i < count && j < s
      reads this
    {
      if (a + 1) % s == 0 && (b + 1) % s == 0 && i == count - 1 && j == 0 then Gnd
      else if offset == 1 && i == 0 && j == 0 then if isA then Vcc else Gnd
      else InitNet(isA, i, j)
    }

    lemma {:induction false} TiedIsWired(isA: bool, i: nat, j: nat)
      requires Shape() && i < count && j < s
      requires GroundingSafe()
      ensures SlotTied(TiedNet(isA, i, j), isA, if isA then a else b, s, offset, i, j)
    {
    }

    /** The dummy first slot adds 1 and 0, so that the carry in passes on to the first operand bit. */
    method TieConstants()
      requires Shape() && Initialised(count)
      modifies pins
      ensures forall i, j :: 0 <= i < count && 0 <= j < s ==>
        pins[i, j] == TiedNet(true, i, j) && pins[i, s + j] == TiedNet(false, i, j)
    {
      if offset == 1 {
        pins[0, 0] := Vcc;
        pins[0, s] := Gnd;
      }
      if (a + 1) % s == 0 && (b + 1) % s == 0 {
        pins[count - 1, 0] := Gnd;
        pins[count - 1, s] := Gnd;
      }
    }

    method TieInputs()
      requires Shape()
      modifies pins
      ensures GroundingSafe() ==> forall i, j :: 0 <= i < count && 0 <= j < s ==>
        SlotTied(pins[i, j], true, a, s, offset, i, j) && SlotTied(pins[i, s + j], false, b, s, offset, i, j)
    {
      InitSplitAdders();
      TieConstants();
      forall i, j | 0 <= i < count && 0 <= j < s && GroundingSafe()
        ensures SlotTied(pins[i, j], true, a, s, offset, i, j) && SlotTied(pins[i, s + j], false, b, s, offset, i, j)
      {
        TiedIsWired(true, i, j);
        TiedIsWired(false, i, j);
      }
    }

    /** Every empty operand slot is connected to the pad. */
    method FillUnconnected()
      requires Shape()
      modifies pins
      ensures forall r, k :: 0 <= r < count && 0 <= k < 2 * s ==>
        pins[r, k] == if old(pins[r, k]) == Null then Pad else old(pins[r, k])
      ensures forall r :: 0 <= r < count ==> pins[r, 2 * s] == old(pins[r, 2 * s])
    {
      var i := 0;
      while i < count
        invariant 0 <= i <= count
        invariant forall r, k :: 0 <= r < count && 0 <= k < 2 * s ==>
          pins[r, k] == if r < i && old(pins[r, k]) == Null then Pad else old(pins[r, k])
        invariant forall r :: 0 <= r < count ==> pins[r, 2 * s] == old(pins[r, 2 * s])
      {
        var j := 0;
        while j < 2 * s
          invariant 0 <= j <= 2 * s
          invariant forall r, k :: 0 <= r < count && 0 <= k < 2 * s ==>
            pins[r, k] == if (r < i || (r == i && k < j)) && old(pins[r, k]) == Null then Pad else old(pins[r, k])
          invariant forall r :: 0 <= r < count ==> pins[r, 2 * s] == old(pins[r, 2 * s])
        {
          if pins[i, j] == Null {
            pins[i, j] := Pad;
          }
          j := j + 1;
        }
        i := i + 1;
      }
    }

    /** Each carry out feeds the next carry in. */
    method ConnectCarries()
      requires Shape()
      modifies pins
      ensures forall r, k :: 0 <= r < count && 0 <= k < 2 * s ==> pins[r, k] == old(pins[r, k])
      ensures CarriesWired(old(pins[0, 2 * s]))
    {
      var i := 1;
      while i < count
        invariant 1 <= i <= count
        invariant forall r, k :: 0 <= r < count && 0 <= k < 2 * s ==> pins[r, k] == old(pins[r, k])
        invariant pins[0, 2 * s] == old(pins[0, 2 * s])
        invariant forall r :: 1 <= r < i ==> pins[r, 2 * s] == Cout(r - 1)
      {
        pins[i, 2 * s] := Cout(i - 1);
        i := i + 1;
      }
    }

    /** Connects every operand slot and carry pin of the chain. */
    method WireInputs(hasCin: bool)
      requires Shape()
      modifies pins
      ensures GroundingSafe() ==> OperandsWired()
      ensures CarriesWired(if offset == 0 then Gnd else if hasCin then Cin else Pad)
    {
      TieInputs();
      label Tied:
      pins[0, 2 * s] := if hasCin then Cin else Pad;
      FillUnconnected();
      if offset == 0 {
        pins[0, 2 * s] := Gnd;
      }
      ConnectCarries();
      forall i, j | 0 <= i < count && 0 <= j < s && GroundingSafe()
        ensures SlotWired(pins[i, j], true, a, s, offset, i, j) && SlotWired(pins[i, s + j], false, b, s, offset, i, j)
      {
        assert pins[i, j] == if old@Tied(pins[i, j]) == Null then Pad else old@Tied(pins[i, j]);
        assert pins[i, s + j] == if old@Tied(pins[i, s + j]) == Null then Pad else old@Tied(pins[i, s + j]);
        assert SlotTied(old@Tied(pins[i, j]), true, a, s, offset, i, j);
        assert SlotTied(old@Tied(pins[i, s + j]), false, b, s, offset, i, j);
      }
    }

    /** The first `done` positions of the chain have been given to the output pins they belong to. */
    ghost predicate OutputsWiredUpTo(done: nat)
      requires Shape()
      reads this, driver
    {
      forall k :: 0 <= k < driver.Length ==>
        if k + offset < done then IsSumAt(driver[k], s, count, k + offset) else driver[k] == Null
    }

    /** Moves output pin k to slot j of cell i; a pin that has already left the old node is a null pointer. */
    method RemapOutput(k: nat, i: nat, j: nat) returns (ok: bool)
      requires Shape() && k < driver.Length
      modifies driver
      ensures ok <==> old(driver[k]) == Null
      ensures driver[..] == if ok then old(driver[..])[k := Sum(i, j)] else old(driver[..])
    {
      if driver[k] != Null {
        return false;
      }
      driver[k] := Sum(i, j);
      ok := true;
    }

    /** The first cell's sum slots from 1 on feed the low output pins; its slot 0 is the dummy. */
    method ConnectFirstCell()
      requires Shape()
      requires count > 1 ==> s - 1 <= driver.Length
      requires forall k :: 0 <= k < driver.Length ==> driver[k] == Null
      modifies driver
      ensures forall k :: 0 <= k < driver.Length ==> driver[k] == if k < s - 1 then Sum(0, k + 1) else Null
    {
      var j := 0;
      while j < s - 1
        invariant 0 <= j <= s - 1
        invariant forall k :: 0 <= k < driver.Length ==> driver[k] == if k < j then Sum(0, k + 1) else Null
      {
        if count > 1 || j < driver.Length {
          driver[j] := Sum(0, j + 1);
        }
        j := j + 1;
      }
    }

    /** Gives the sum slots of cell i, as far as there are output pins for them, to the output pins. */
    method ConnectCell(i: nat, last: bool) returns (ok: bool)
      requires Shape() && i < count && Pos(s, i, 0) >= offset
      requires !last ==> Pos(s, i, s) - offset <= driver.Length
      modifies driver
      ensures old(OutputsWiredUpTo(Pos(s, i, 0))) ==> ok && OutputsWiredUpTo(Pos(s, i, s))
      ensures old(Pos(s, i, 0) - offset < driver.Length && driver[Pos(s, i, 0) - offset] != Null) ==> !ok
    {
      ghost var wired := OutputsWiredUpTo(Pos(s, i, 0));
      ghost var taken := Pos(s, i, 0) - offset < driver.Length && driver[Pos(s, i, 0) - offset] != Null;
      var j := 0;
      while j < s
        invariant 0 <= j <= s
        invariant wired ==> OutputsWiredUpTo(Pos(s, i, j))
        invariant taken ==> j == 0 && driver[Pos(s, i, 0) - offset] != Null
      {
        var k := i * s + j - offset;
        assert k + offset == Pos(s, i, j);
        if !last || k < driver.Length {
          ok := RemapOutput(k, i, j);
          if !ok {
            return;
          }
        }
        j := j + 1;
      }
      ok := true;
    }

    /** The cells from the one after the dummy up to the last but one fill whole stretches of output pins. */
    method ConnectMiddleCells() returns (ok: bool)
      requires Shape() && count > 1 && Pos(s, count - 1, 0) <= driver.Length + offset
      modifies driver
      ensures (offset == 1 || s == 1) && old(OutputsWiredUpTo(Pos(s, offset, 0))) ==>
        ok && OutputsWiredUpTo(Pos(s, count - 1, 0))
      ensures offset == 0 && old(driver.Length > 0 && driver[0] != Null) ==> !ok
    {
      ghost var wired := OutputsWiredUpTo(Pos(s, offset, 0));
      ghost var taken := offset == 0 && driver.Length > 0 && driver[0] != Null;
      ok := true;
      var i := offset;
      while i < count - 1
        invariant offset <= i <= count - 1
        invariant wired ==> OutputsWiredUpTo(Pos(s, i, 0))
        invariant taken ==> i == 0 && driver[0] != Null
        invariant ok
      {
        PosBounds(s, i, count - 1);
        ok := ConnectCell(i, false);
        if !ok {
          return;
        }
        i := i + 1;
      }
    }

    /** All cells behind the first one, or the dummy. */
    method ConnectLaterCells() returns (ok: bool)
      requires Shape() && count > 1 && Pos(s, count - 1, 0) <= driver.Length + offset
      modifies driver
      ensures (offset == 1 || s == 1) && old(OutputsWiredUpTo(Pos(s, offset, 0))) ==>
        ok && OutputsWiredUpTo(Pos(s, count, 0))
      ensures offset == 0 && old(driver.Length > 0 && driver[0] != Null) ==> !ok
    {
      ok := ConnectMiddleCells();
      if ok {
        PosBounds(s, 0, count - 1);
        PosBounds(s, count - 1, count);
        ok := ConnectCell(count - 1, true);
      }
    }

    lemma {:induction false} FirstCellWired()
      requires Shape() && forall k :: 0 <= k < driver.Length ==> driver[k] == if k < s - 1 then Sum(0, k + 1) else Null
      ensures offset == 1 || s == 1 ==> OutputsWiredUpTo(Pos(s, offset, 0))
    {
      assert Pos(s, 0, 0) == 0 && Pos(s, 1, 0) == s;
      forall k | 0 <= k < driver.Length && offset == 1 && k + 1 < s
        ensures IsSumAt(driver[k], s, count, k + 1)
      {
        assert Pos(s, 0, k + 1) == k + 1;
      }
    }

    /** Moves the output pins of the node to the sum pins of the cells. */
    method ConnectOutputs() returns (ok: bool)
      requires Shape()
      requires driver.Length >= Max(a, b) && count == CellCount(a, b, s, offset)
      requires forall k :: 0 <= k < driver.Length ==> driver[k] == Null
      modifies driver
      ensures offset == 1 || s == 1 ==> ok && OutputsWiredUpTo(Pos(s, count, 0))
      ensures offset == 0 && s >= 2 && ok ==>
        count == 1 && s <= Max(a, b) + 1 && forall k :: s - 1 <= k < driver.Length ==> driver[k] == Null
    {
      ChainReach(a, b, s, offset);
      ConnectFirstCell();
      FirstCellWired();
      if count == 1 {
        return true;
      }
      ok := ConnectLaterCells();
    }
  }
}
