/** Every operand pair has a behaviour of the divider, so the theorems of Division speak of something. */
module DivisionBehaviour {
  import opened Bits
  import opened Nets
  import opened Division

  /** The signals of one row: cell inputs, borrows, differences and outputs. */
  datatype Row = Row(x: seq<bool>, b: seq<bool>, d: seq<bool>, p: seq<bool>)

  ghost predicate ColumnOk(ys: seq<bool>, r: Row, j: nat)
    requires j < |r.x| == |r.b| == |r.d| && |r.x| <= |ys| + 1
  {
    var bin := j > 0 && r.b[j - 1];
    if j < |ys| then
      && r.b[j] == ((!r.x[j] && (ys[j] || bin)) || (ys[j] && bin))
      && r.d[j] == ((r.x[j] != ys[j]) != bin)
    else
      && r.b[j] == (!r.x[j] && bin)
      && r.d[j] == (r.x[j] != bin)
  }

  ghost predicate RowOk(ys: seq<bool>, r: Row) {
    && 1 <= |r.x| == |r.b| == |r.d| == |r.p| <= |ys| + 1
    && (forall j: nat {:trigger ColumnOk(ys, r, j)} :: j < |r.x| ==> ColumnOk(ys, r, j))
    && r.p == if r.b[|r.x| - 1] then r.x else r.d
  }

  ghost predicate ColumnsOk(ys: seq<bool>, r: Row) {
    && |r.x| == |r.b| == |r.d| <= |ys| + 1
    && forall j: nat {:trigger ColumnOk(ys, r, j)} :: j < |r.x| ==> ColumnOk(ys, r, j)
  }

  lemma {:induction false} ColumnsGrow(ys: seq<bool>, r: Row, x: bool) returns (r': Row)
    requires ColumnsOk(ys, r) && |r.x| <= |ys|
    ensures ColumnsOk(ys, r') && r'.x == r.x + [x]
  {
    var k := |r.x|;
    var bin, y := k > 0 && r.b[k - 1], k < |ys| && ys[k];
    r' := Row(r.x + [x], r.b + [(!x && (y || bin)) || (y && bin)], r.d + [(x != y) != bin], []);
    forall j: nat | j < k + 1
      ensures ColumnOk(ys, r', j)
    {
      if j < k {
        assert ColumnOk(ys, r, j);
      }
    }
  }

  lemma {:induction false} MakeRow(xs: seq<bool>, ys: seq<bool>) returns (r: Row)
    requires 1 <= |xs| <= |ys| + 1
    ensures RowOk(ys, r) && r.x == xs
  {
    var c := Row([], [], [], []);
    while |c.x| < |xs|
      invariant ColumnsOk(ys, c) && |c.x| <= |xs| && c.x == xs[..|c.x|]
    {
      c := ColumnsGrow(ys, c, xs[|c.x|]);
    }
    r := c.(p := if c.b[|xs| - 1] then xs else c.d);
    forall j: nat | j < |xs|
      ensures ColumnOk(ys, r, j)
    {
      assert ColumnOk(ys, c, j);
    }
  }

  /** Row i is well formed and takes its inputs from the dividend and the row above. */
  ghost predicate Linked(dd: seq<bool>, ys: seq<bool>, t: seq<Row>, i: nat)
    requires i < |t| <= |ys| && |dd| == 2 * |ys| - 1
  {
    && RowOk(ys, t[i])
    && |t[i].x| == RowLength(|ys|, i)
    && if i == 0 then t[i].x == dd[|ys| - 1..]
       else |t[i - 1].p| >= |ys| && t[i].x == [dd[|ys| - 1 - i]] + t[i - 1].p[..|ys|]
  }

  ghost predicate RowsOk(dd: seq<bool>, ys: seq<bool>, t: seq<Row>)
    requires |t| <= |ys| && |dd| == 2 * |ys| - 1
  {
    forall i: nat {:trigger Linked(dd, ys, t, i)} :: i < |t| ==> Linked(dd, ys, t, i)
  }

  lemma {:induction false} MakeRows(dd: seq<bool>, ys: seq<bool>) returns (t: seq<Row>)
    requires |ys| >= 1 && |dd| == 2 * |ys| - 1
    ensures |t| == |ys| && RowsOk(dd, ys, t)
  {
    var n := |ys|;
    var r := MakeRow(dd[n - 1..], ys);
    t := [r];
    while |t| < n
      invariant 1 <= |t| <= n && RowsOk(dd, ys, t)
    {
      var i := |t|;
      assert Linked(dd, ys, t, i - 1);
      r := MakeRow([dd[n - 1 - i]] + t[i - 1].p[..n], ys);
      var t' := t + [r];
      forall k: nat | k <= i
        ensures Linked(dd, ys, t', k)
      {
        assert k < i ==> Linked(dd, ys, t, k);
      }
      t := t';
    }
  }

  /** The signal of one net; a column outside the array carries 0. */
  ghost function NetValue(dd: seq<bool>, ys: seq<bool>, t: seq<Row>, kind: Kind, net: Net): bool
    requires |t| == |ys|
  {
    var n := |ys|;
    match net
    case Gnd => false
    case Dividend(k) => k < |dd| && dd[k]
    case Divisor(k) => k < n && ys[k]
    case Borrow(i, j) => i < n && j < |t[i].b| && t[i].b[j]
    case Partial(i, j) => i < n && j < |t[i].p| && t[i].p[j]
    case Control(i, j) => i < n && |t[i].b| > 0 && !t[i].b[|t[i].b| - 1]
    case Diff(i, j) => i < n && j < |t[i].d| && t[i].d[j]
    case NoBorrow(i) => i < n && |t[i].b| > 0 && !t[i].b[|t[i].b| - 1]
    case Out(k) =>
      && k < n
      && var r := t[if kind.Divide? then n - 1 - k else n - 1];
         if kind.Divide? then |r.b| > 0 && !r.b[|r.b| - 1] else k < |r.p| && r.p[k]
  }

  ghost function Behaviour(dd: seq<bool>, ys: seq<bool>, t: seq<Row>, kind: Kind): Wires
    requires |t| == |ys|
  {
    net => NetValue(dd, ys, t, kind, net)
  }

  lemma {:induction false} CellInput(dd: seq<bool>, ys: seq<bool>, t: seq<Row>, kind: Kind, m: nat, i: nat, j: nat)
    requires |t| == |ys| >= 1 && |dd| == 2 * |ys| - 1 && RowsOk(dd, ys, t) && InArray(|ys|, i, j)
    requires m <= |dd| && forall k :: m <= k < |dd| ==> !dd[k]
    ensures |t[i].x| == RowLength(|ys|, i)
    ensures NetValue(dd, ys, t, kind, CellX(PaddedDividend(m, |ys|), |ys|, i, j)) == t[i].x[j]
  {
    assert Linked(dd, ys, t, i);
    if i > 0 && j > 0 {
      assert Linked(dd, ys, t, i - 1);
    }
  }

  lemma {:induction false} GatesBehave(dd: seq<bool>, ys: seq<bool>, t: seq<Row>, kind: Kind, x: Net, i: nat, j: nat)
    requires |t| == |ys| && InArray(|ys|, i, j)
    requires RowOk(ys, t[i]) && |t[i].x| == RowLength(|ys|, i) && ColumnOk(ys, t[i], j)
    requires NetValue(dd, ys, t, kind, x) == t[i].x[j]
    ensures var n, w, c := |ys|, Behaviour(dd, ys, t, kind), CellControl(|ys|, i, j);
      && Holds(FullSub(x, CellY(DivisorNets(n), i, j), CellBorrowIn(n, i, j), Diff(i, j), Borrow(i, j)), w)
      && Holds(Smux(c, x, Diff(i, j), Partial(i, j)), w)
      && Holds(Buf(c, Control(i, j)), w)
      && (j + 1 == RowLength(n, i) ==> Holds(Not(Borrow(i, j), NoBorrow(i)), w))
  {
  }

  lemma {:induction false} CellBehaves(dd: seq<bool>, ys: seq<bool>, t: seq<Row>, kind: Kind, m: nat, i: nat, j: nat)
    requires |t| == |ys| >= 1 && |dd| == 2 * |ys| - 1 && RowsOk(dd, ys, t) && InArray(|ys|, i, j)
    requires m <= |dd| && forall k :: m <= k < |dd| ==> !dd[k]
    ensures AllHold(CellGates(PaddedDividend(m, |ys|), DivisorNets(|ys|), i, j), Behaviour(dd, ys, t, kind))
  {
    var n, w := |ys|, Behaviour(dd, ys, t, kind);
    var x := CellX(PaddedDividend(m, n), n, i, j);
    CellInput(dd, ys, t, kind, m, i, j);
    assert Linked(dd, ys, t, i) && ColumnOk(ys, t[i], j);
    GatesBehave(dd, ys, t, kind, x, i, j);
  }

  lemma {:induction false} DivideOutputBehaves(dd: seq<bool>, ys: seq<bool>, t: seq<Row>, width: nat, i: nat)
    requires |t| == |ys| >= 2 && |dd| == 2 * |ys| - 1 && RowsOk(dd, ys, t) && i < width
    ensures Holds(OutputGates(Divide, width, QuotientNets(|ys|), RemainderNets(|ys|))[i], Behaviour(dd, ys, t, Divide))
  {
  }

  lemma {:induction false} ModuloOutputBehaves(dd: seq<bool>, ys: seq<bool>, t: seq<Row>, width: nat, i: nat)
    requires |t| == |ys| >= 2 && |dd| == 2 * |ys| - 1 && RowsOk(dd, ys, t) && i < width
    ensures Holds(OutputGates(Modulo, width, QuotientNets(|ys|), RemainderNets(|ys|))[i], Behaviour(dd, ys, t, Modulo))
  {
    assert Linked(dd, ys, t, |ys| - 1);
  }

  lemma {:induction false} OutputBehaves(dd: seq<bool>, ys: seq<bool>, t: seq<Row>, kind: Kind, width: nat, i: nat)
    requires |t| == |ys| >= 2 && |dd| == 2 * |ys| - 1 && RowsOk(dd, ys, t) && i < width
    ensures Holds(OutputGates(kind, width, QuotientNets(|ys|), RemainderNets(|ys|))[i], Behaviour(dd, ys, t, kind))
  {
    if kind.Divide? {
      DivideOutputBehaves(dd, ys, t, width, i);
    } else {
      ModuloOutputBehaves(dd, ys, t, width, i);
    }
  }

  /** For all operand values there is a behaviour with those values on the operand pins. */
  lemma {:induction false} DividerBehaves(dd: seq<bool>, ys: seq<bool>, kind: Kind, width: nat) returns (w: Wires)
    requires |ys| >= 2 && |dd| <= 2 * |ys| - 1
    ensures AllHold(DividerGates(kind, |dd|, |ys|, width), w)
    ensures Bus(OperandNets(|dd|), w) == dd && Bus(DivisorNets(|ys|), w) == ys
  {
    var m, n := |dd|, |ys|;
    var padded := dd + Zeros(2 * n - 1 - m);
    var t := MakeRows(padded, ys);
    w := Behaviour(padded, ys, t, kind);
    var dividend, divisor := PaddedDividend(m, n), DivisorNets(n);
    forall i: nat, j: nat | i < n && InArray(n, i, j)
      ensures AllHold(CellGates(dividend, divisor, i, j), w)
    {
      CellBehaves(padded, ys, t, kind, m, i, j);
    }
    ArrayGatesHold(dividend, divisor, n, w);
    var outs := OutputGates(kind, width, QuotientNets(n), RemainderNets(n));
    forall i | 0 <= i < width
      ensures Holds(outs[i], w)
    {
      OutputBehaves(padded, ys, t, kind, width, i);
    }
    AllHoldAppend(ArrayGates(dividend, divisor, n), outs, w);
    assert Bus(OperandNets(m), w) == dd && Bus(DivisorNets(n), w) == ys;
  }

  lemma {:induction false} ValOfTwo(bs: seq<bool>)
    requires |bs| == 2
    ensures Val(bs) == Bit(bs[0]) + 2 * Bit(bs[1])
  {
    assert Val(bs[1..]) == Bit(bs[1]) + 2 * Val(bs[1..][1..]);
  }

  lemma {:induction false} ValOfThree(bs: seq<bool>)
    requires |bs| == 3
    ensures Val(bs) == Bit(bs[0]) + 2 * (Bit(bs[1]) + 2 * Bit(bs[2]))
  {
    ValOfTwo(bs[1..]);
  }

  /** The first row of the two-bit divider, dividing 4 by 1, finds 2 >= 1 and leaves 1. */
  lemma {:induction false} FourByOneFirst(dividend: seq<Net>, divisor: seq<Net>, w: Wires)
    requires |divisor| == 2 && |dividend| == 3 && CellsHold(dividend, divisor, w)
    requires Bus(dividend, w) == [false, false, true] && Number(divisor, w) == 1
    ensures w(Control(0, 0)) && w(Partial(0, 0)) && !w(Partial(0, 1))
  {
    RowRestores(dividend, divisor, 0, w);
    var input, output := Bus(RowIn(dividend, 2, 0), w), Bus(RowOut(2, 0), w);
    ValOfTwo(input);
    ValOfTwo(output);
    assert input[0] == Bus(dividend, w)[1] && input[1] == Bus(dividend, w)[2];
    assert output[0] == w(Partial(0, 0)) && output[1] == w(Partial(0, 1));
  }

  /** And so does the second, whose input is that 1 with another bit of the dividend, a 0, below it. */
  lemma {:induction false} FourByOneLast(dividend: seq<Net>, divisor: seq<Net>, w: Wires)
    requires |divisor| == 2 && |dividend| == 3 && CellsHold(dividend, divisor, w)
    requires Bus(dividend, w) == [false, false, true] && Number(divisor, w) == 1
    ensures w(Control(1, 0)) && w(Partial(1, 0)) && !w(Partial(1, 1))
  {
    FourByOneFirst(dividend, divisor, w);
    RowRestores(dividend, divisor, 1, w);
    var input, output := Bus(RowIn(dividend, 2, 1), w), Bus(RowOut(2, 1), w);
    ValOfThree(input);
    ValOfThree(output);
    assert input[0] == Bus(dividend, w)[0] && input[1] == w(Partial(0, 0)) && input[2] == w(Partial(0, 1));
    assert output[0] == w(Partial(1, 0)) && output[1] == w(Partial(1, 1));
  }

  lemma {:induction false} FourByOneCells(kind: Kind, width: nat, w: Wires)
    requires AllHold(DividerGates(kind, 3, 2, width), w)
    requires Bus(OperandNets(3), w) == [false, false, true] && Number(DivisorNets(2), w) == 1
    ensures AllHold(OutputGates(kind, width, QuotientNets(2), RemainderNets(2)), w)
    ensures Val(QuotientBits(1, w)) == 3 && Number(RemainderNets(2), w) == 1
  {
    var dividend, divisor := PaddedDividend(3, 2), DivisorNets(2);
    AllHoldAppend(ArrayGates(dividend, divisor, 2), OutputGates(kind, width, QuotientNets(2), RemainderNets(2)), w);
    ArrayGatesHold(dividend, divisor, 2, w);
    assert Bus(dividend, w) == Bus(OperandNets(3), w);
    FourByOneFirst(dividend, divisor, w);
    FourByOneLast(dividend, divisor, w);
    ValOfTwo(QuotientBits(1, w));
    ValOfTwo(Bus(RemainderNets(2), w));
  }

  lemma {:induction false} FourByOne(kind: Kind, width: nat) returns (w: Wires)
    requires width >= 2
    ensures AllHold(DividerGates(kind, 3, 2, width), w)
    ensures Number(OperandNets(3), w) == 4 && Number(DivisorNets(2), w) == 1
    ensures Number(OutputNets(width), w) == if kind.Divide? then 3 else 1
  {
    w := DividerBehaves([false, false, true], [true, false], kind, width);
    ValOfThree([false, false, true]);
    ValOfTwo([true, false]);
    FourByOneCells(kind, width, w);
    Pow2Monotone(2, width);
    assert Pow2(2) == 4;
    ModUnique(3, Pow2(width), 0, 3);
    ModUnique(1, Pow2(width), 0, 1);
    if kind.Divide? {
      DivideOutputs(2, width, w);
    } else {
      ModuloOutputs(2, width, w);
    }
  }

  /** A dividend that is too large: a two-bit divisor makes 3 of 4 / 1, and 1 of 4 % 1. */
  lemma {:induction false} QuotientCanOverflow(width: nat) returns (quotient: Wires, remainder: Wires)
    requires width >= 2
    ensures AllHold(DividerGates(Divide, 3, 2, width), quotient)
    ensures Number(OperandNets(3), quotient) == 4 && Number(DivisorNets(2), quotient) == 1
    ensures Number(OutputNets(width), quotient) == 3
    ensures AllHold(DividerGates(Modulo, 3, 2, width), remainder)
    ensures Number(OperandNets(3), remainder) == 4 && Number(DivisorNets(2), remainder) == 1
    ensures Number(OutputNets(width), remainder) == 1
  {
    quotient := FourByOne(Divide, width);
    remainder := FourByOne(Modulo, width);
  }
}
