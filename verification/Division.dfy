/** The combinational divider: a triangle of controlled-subtract cells and its output wiring. */
module Division {
  import opened Bits
  import opened Nets

  /** A net, named by the pin that drives it. */
  datatype Net =
    | Gnd
    | Dividend(bit: nat)
    | Divisor(bit: nat)
    | Borrow(row: nat, col: nat)   // pin 0 of CR_outputs[row][col]
    | Partial(row: nat, col: nat)  // pin 1
    | Control(row: nat, col: nat)  // pin 2
    | Diff(row: nat, col: nat)     // inside the cell: subtractor to multiplexer
    | NoBorrow(row: nat)           // the inverter at the left end of a row
    | Out(bit: nat)                // an output pin of the divide or modulo node

  datatype Gate =
    | FullSub(x: Net, y: Net, bin: Net, diff: Net, bout: Net)
    | Smux(sel: Net, in0: Net, in1: Net, out: Net)
    | Not(a: Net, out: Net)
    | Buf(a: Net, out: Net)

  type Wires = Net -> bool

  ghost predicate Holds(g: Gate, w: Wires) {
    match g
    case FullSub(x, y, bin, diff, bout) =>
      && w(diff) == ((w(x) != w(y)) != w(bin))
      && w(bout) == ((!w(x) && (w(y) || w(bin))) || (w(y) && w(bin)))
    case Smux(sel, in0, in1, out) => w(out) == if w(sel) then w(in1) else w(in0)
    case Not(a, out) => w(out) == !w(a)
    case Buf(a, out) => w(out) == w(a)
  }

  /** A wire assignment is a behaviour of the netlist when every gate relates its pins correctly. */
  ghost predicate AllHold(gs: seq<Gate>, w: Wires) {
    !w(Gnd) && forall g :: g in gs ==> Holds(g, w)
  }

  // ----- the cells -----

  function RowLength(n: nat, i: nat): nat {
    if i == 0 then n else n + 1
  }

  ghost predicate InArray(n: nat, i: nat, j: nat) {
    i < n && j < RowLength(n, i)
  }

  function CellX(dividend: seq<Net>, n: nat, i: nat, j: nat): Net
    requires |dividend| == 2 * n - 1 && InArray(n, i, j)
  {
    if i == 0 || j == 0 then dividend[n - 1 - i + j] else Partial(i - 1, j - 1)
  }

  function CellY(divisor: seq<Net>, i: nat, j: nat): Net
    requires InArray(|divisor|, i, j)
  {
    if j == |divisor| then Borrow(i, j - 1) else divisor[j]
  }

  function CellBorrowIn(n: nat, i: nat, j: nat): Net {
    if j == 0 || j == n then Gnd else Borrow(i, j - 1)
  }

  function CellControl(n: nat, i: nat, j: nat): Net {
    if j + 1 == RowLength(n, i) then NoBorrow(i) else Control(i, j + 1)
  }

  function CellGates(dividend: seq<Net>, divisor: seq<Net>, i: nat, j: nat): seq<Gate>
    requires |dividend| == 2 * |divisor| - 1 && InArray(|divisor|, i, j)
  {
    var n := |divisor|;
    var x, c := CellX(dividend, n, i, j), CellControl(n, i, j);
    (if j + 1 == RowLength(n, i) then [Not(Borrow(i, j), NoBorrow(i))] else [])
    + [FullSub(x, CellY(divisor, i, j), CellBorrowIn(n, i, j), Diff(i, j), Borrow(i, j)),
       Smux(c, x, Diff(i, j), Partial(i, j)),
       Buf(c, Control(i, j))]
  }

  function RowGates(dividend: seq<Net>, divisor: seq<Net>, i: nat, k: nat): seq<Gate>
    requires |dividend| == 2 * |divisor| - 1 && i < |divisor| && k <= RowLength(|divisor|, i)
  {
    if k == 0 then [] else RowGates(dividend, divisor, i, k - 1) + CellGates(dividend, divisor, i, k - 1)
  }

  function ArrayGates(dividend: seq<Net>, divisor: seq<Net>, rows: nat): seq<Gate>
    requires |dividend| == 2 * |divisor| - 1 && rows <= |divisor|
  {
    if rows == 0 then [] else
      ArrayGates(dividend, divisor, rows - 1)
      + RowGates(dividend, divisor, rows - 1, RowLength(|divisor|, rows - 1))
  }

  /** The quotient pins as collected: row 0, the most significant bit, comes first. */
  function QuotientNets(rows: nat): (q: seq<Net>)
    ensures |q| == rows
  {
    seq(rows, (i: nat) => Control(i, 0))
  }

  function RemainderNets(n: nat): (r: seq<Net>)
    requires n >= 2
    ensures |r| == n
  {
    seq(n, (j: nat) => Partial(n - 1, j))
  }

  /** The remainder pins collected from the first k cells of row i: none but in the last of several rows. */
  function RowRemainder(n: nat, i: nat, k: nat): (r: seq<Net>)
    requires k <= n
  {
    if i == n - 1 && i >= 1 then RemainderNets(n)[..k] else []
  }

  function AtMost(j: nat, n: nat): (k: nat)
    ensures k <= n
  {
    if j < n then j else n
  }

  lemma {:induction false} RowRemainderGrows(n: nat, i: nat, j: nat)
    requires i < n && j < RowLength(n, i)
    ensures RowRemainder(n, i, AtMost(j + 1, n)) ==
      RowRemainder(n, i, AtMost(j, n)) + if i == n - 1 && j + 1 != RowLength(n, i) then [Partial(i, j)] else []
  {
  }

  /** What a builder has produced so far: gates, quotient pins and remainder pins. */
  datatype Collected = Collected(gates: seq<Gate>, quotient: seq<Net>, remainder: seq<Net>)

  /** Row i has been built up to column j, on top of what was there at its start. */
  ghost predicate RowSoFar(dividend: seq<Net>, divisor: seq<Net>, i: nat, j: nat, start: Collected, now: Collected)
    requires |dividend| == 2 * |divisor| - 1 && i < |divisor| && j <= RowLength(|divisor|, i)
  {
    && now.gates == start.gates + RowGates(dividend, divisor, i, j)
    && now.quotient == start.quotient + (if j == 0 then [] else [Control(i, 0)])
    && now.remainder == start.remainder + RowRemainder(|divisor|, i, AtMost(j, |divisor|))
  }

  lemma {:induction false} RowStarts(dividend: seq<Net>, divisor: seq<Net>, i: nat, start: Collected)
    requires |dividend| == 2 * |divisor| - 1 && i < |divisor|
    ensures RowSoFar(dividend, divisor, i, 0, start, start)
  {
    assert start.gates + [] == start.gates;
    assert start.quotient + [] == start.quotient && start.remainder + [] == start.remainder;
  }

  /** What the cell at row i and column j adds. */
  ghost predicate CellAdded(dividend: seq<Net>, divisor: seq<Net>, i: nat, j: nat, now: Collected, next: Collected)
    requires |dividend| == 2 * |divisor| - 1 && InArray(|divisor|, i, j)
  {
    var keeps := i == |divisor| - 1 && j + 1 != RowLength(|divisor|, i);
    && next.gates == now.gates + CellGates(dividend, divisor, i, j)
    && next.quotient == now.quotient + (if j == 0 then [Control(i, 0)] else [])
    && next.remainder == now.remainder + (if keeps then [Partial(i, j)] else [])
  }

  lemma {:induction false} Regroup<T>(a: seq<T>, b: seq<T>, c: seq<T>)
    ensures (a + b) + c == a + (b + c)
  {
  }

  lemma {:induction false} RowGrows(dividend: seq<Net>, divisor: seq<Net>, i: nat, j: nat,
                                    start: Collected, now: Collected, next: Collected)
    requires |dividend| == 2 * |divisor| - 1 && InArray(|divisor|, i, j)
    requires RowSoFar(dividend, divisor, i, j, start, now) && CellAdded(dividend, divisor, i, j, now, next)
    ensures RowSoFar(dividend, divisor, i, j + 1, start, next)
  {
    RowRemainderGrows(|divisor|, i, j);
    var rest := if i == |divisor| - 1 && j + 1 != RowLength(|divisor|, i) then [Partial(i, j)] else [];
    Regroup(start.gates, RowGates(dividend, divisor, i, j), CellGates(dividend, divisor, i, j));
    Regroup(start.remainder, RowRemainder(|divisor|, i, AtMost(j, |divisor|)), rest);
    Regroup(start.quotient, if j == 0 then [] else [Control(i, 0)], if j == 0 then [Control(i, 0)] else []);
  }

  lemma {:induction false} QuotientNetsGrow(i: nat)
    ensures QuotientNets(i + 1) == QuotientNets(i) + [Control(i, 0)]
  {
  }

  /** The remainder pins collected from the first i rows. */
  function RemainderAfter(n: nat, i: nat): seq<Net> {
    if i == 0 then [] else RemainderAfter(n, i - 1) + RowRemainder(n, i - 1, n)
  }

  lemma {:induction false} WholeRemainder(n: nat, i: nat)
    requires i <= n
    ensures RemainderAfter(n, i) == if i == n >= 2 then RemainderNets(n) else []
  {
    if i > 0 {
      WholeRemainder(n, i - 1);
    }
  }

  /** Rows 0 to i - 1 have been built. */
  ghost predicate RowsSoFar(dividend: seq<Net>, divisor: seq<Net>, i: nat, start: seq<Gate>, now: Collected)
    requires |dividend| == 2 * |divisor| - 1 && i <= |divisor|
  {
    && now.gates == start + ArrayGates(dividend, divisor, i)
    && now.quotient == QuotientNets(i)
    && now.remainder == RemainderAfter(|divisor|, i)
  }

  lemma {:induction false} RowAdded(dividend: seq<Net>, divisor: seq<Net>, i: nat,
                                    start: seq<Gate>, now: Collected, next: Collected)
    requires |dividend| == 2 * |divisor| - 1 && i < |divisor| && RowsSoFar(dividend, divisor, i, start, now)
    requires next.gates == now.gates + RowGates(dividend, divisor, i, RowLength(|divisor|, i))
    requires next.quotient == now.quotient + [Control(i, 0)]
    requires next.remainder == now.remainder + RowRemainder(|divisor|, i, |divisor|)
    ensures RowsSoFar(dividend, divisor, i + 1, start, next)
  {
    Regroup(start, ArrayGates(dividend, divisor, i), RowGates(dividend, divisor, i, RowLength(|divisor|, i)));
    QuotientNetsGrow(i);
  }

  datatype Kind = Divide | Modulo

  function OutputGates(kind: Kind, width: nat, quotient: seq<Net>, remainder: seq<Net>): (gs: seq<Gate>)
    requires |quotient| == |remainder|
    ensures |gs| == width
  {
    var n := |quotient|;
    match kind
    case Divide =>
      if width >= n then
        seq(width, (i: nat) => if i < n then Buf(quotient[i], Out(n - i - 1)) else Buf(Gnd, Out(i)))
      else
        seq(width, (i: nat) requires i < width => Buf(quotient[n - width + i], Out(width - i - 1)))
    case Modulo =>
      seq(width, (i: nat) => Buf(if i < n then remainder[i] else Gnd, Out(i)))
  }

  function PaddedDividend(m: nat, n: nat): (dividend: seq<Net>)
    requires m <= 2 * n - 1
    ensures |dividend| == 2 * n - 1
  {
    seq(2 * n - 1, (i: nat) => if i < m then Dividend(i) else Gnd)
  }

  function DivisorNets(n: nat): (divisor: seq<Net>)
    ensures |divisor| == n
  {
    seq(n, (i: nat) => Divisor(i))
  }

  function OperandNets(m: nat): (dividend: seq<Net>)
    ensures |dividend| == m
  {
    seq(m, (i: nat) => Dividend(i))
  }

  function OutputNets(width: nat): (outs: seq<Net>)
    ensures |outs| == width
  {
    seq(width, (i: nat) => Out(i))
  }

  /** All gates that replace a divide or modulo node. */
  function DividerGates(kind: Kind, m: nat, n: nat, width: nat): seq<Gate>
    requires n >= 2 && m <= 2 * n - 1
  {
    ArrayGates(PaddedDividend(m, n), DivisorNets(n), n) + OutputGates(kind, width, QuotientNets(n), RemainderNets(n))
  }

  /** The number on the output pins is the quotient or remainder, cut to the output width. */
  ghost predicate Divides(kind: Kind, m: nat, n: nat, width: nat, w: Wires) {
    var dd, d := Number(OperandNets(m), w), Number(DivisorNets(n), w);
    d > 0 && dd < d * Pow2(n) ==>
      Number(OutputNets(width), w) == (if kind.Divide? then dd / d else dd % d) % Pow2(width)
  }

  /** The dividend is padded with zeros on its most significant side up to 2n-1 bits. */
  method ModifyDivSignalSizes(m: nat, n: nat) returns (dividend: seq<Net>, divisor: seq<Net>)
    ensures divisor == DivisorNets(n)
    ensures |dividend| == if m < 2 * n - 1 then 2 * n - 1 else m
    ensures m <= 2 * n - 1 ==> dividend == PaddedDividend(m, n)
  {
    var newDividendWidth := m;
    if m < 2 * n - 1 {
      while newDividendWidth < 2 * n - 1
        invariant m <= newDividendWidth <= 2 * n - 1
      {
        newDividendWidth := newDividendWidth + 1;
      }
    }
    dividend, divisor := [], [];
    for i := 0 to newDividendWidth
      invariant |dividend| == i
      invariant forall k :: 0 <= k < i ==> dividend[k] == if k < m then Dividend(k) else Gnd
    {
      dividend := dividend + [if i < m then Dividend(i) else Gnd];
    }
    for i := 0 to n
      invariant |divisor| == i && forall k :: 0 <= k < i ==> divisor[k] == Divisor(k)
    {
      divisor := divisor + [Divisor(i)];
    }
  }

  // ----- what a row computes -----

  ghost predicate CellsHold(dividend: seq<Net>, divisor: seq<Net>, w: Wires)
    requires |dividend| == 2 * |divisor| - 1
  {
    && !w(Gnd)
    && forall i: nat, j: nat {:trigger CellGates(dividend, divisor, i, j)} ::
         InArray(|divisor|, i, j) ==> AllHold(CellGates(dividend, divisor, i, j), w)
  }

  lemma {:induction false} AllHoldAppend(a: seq<Gate>, b: seq<Gate>, w: Wires)
    ensures AllHold(a + b, w) <==> AllHold(a, w) && AllHold(b, w)
  {
    assert forall g :: g in a + b <==> g in a || g in b;
  }

  lemma {:induction false} RowGatesHold(dividend: seq<Net>, divisor: seq<Net>, i: nat, k: nat, w: Wires)
    requires |dividend| == 2 * |divisor| - 1 && i < |divisor| && k <= RowLength(|divisor|, i)
    requires !w(Gnd)
    ensures AllHold(RowGates(dividend, divisor, i, k), w)
       <==> forall j: nat {:trigger CellGates(dividend, divisor, i, j)} :: j < k ==>
         AllHold(CellGates(dividend, divisor, i, j), w)
  {
    if k > 0 {
      RowGatesHold(dividend, divisor, i, k - 1, w);
      var front, last := RowGates(dividend, divisor, i, k - 1), CellGates(dividend, divisor, i, k - 1);
      AllHoldAppend(front, last, w);
    }
  }

  /** All cells of the first rows behave. */
  ghost predicate EachCellHolds(dividend: seq<Net>, divisor: seq<Net>, rows: nat, w: Wires)
    requires |dividend| == 2 * |divisor| - 1 && rows <= |divisor|
  {
    forall i: nat, j: nat {:trigger CellGates(dividend, divisor, i, j)} ::
      i < rows && InArray(|divisor|, i, j) ==> AllHold(CellGates(dividend, divisor, i, j), w)
  }

  lemma {:induction false} RowsHoldStep(dividend: seq<Net>, divisor: seq<Net>, i: nat, w: Wires)
    requires |dividend| == 2 * |divisor| - 1 && i < |divisor| && !w(Gnd)
    ensures EachCellHolds(dividend, divisor, i + 1, w) <==>
      EachCellHolds(dividend, divisor, i, w) && AllHold(RowGates(dividend, divisor, i, RowLength(|divisor|, i)), w)
  {
    RowGatesHold(dividend, divisor, i, RowLength(|divisor|, i), w);
  }

  ghost predicate RowsHold(dividend: seq<Net>, divisor: seq<Net>, rows: nat, w: Wires)
    requires |dividend| == 2 * |divisor| - 1 && rows <= |divisor|
  {
    rows > 0 ==>
      RowsHold(dividend, divisor, rows - 1, w)
        && AllHold(RowGates(dividend, divisor, rows - 1, RowLength(|divisor|, rows - 1)), w)
  }

  lemma {:induction false} RowsHoldMeans(dividend: seq<Net>, divisor: seq<Net>, rows: nat, w: Wires)
    requires |dividend| == 2 * |divisor| - 1 && rows <= |divisor| && !w(Gnd)
    ensures RowsHold(dividend, divisor, rows, w) <==> EachCellHolds(dividend, divisor, rows, w)
  {
    if rows > 0 {
      RowsHoldMeans(dividend, divisor, rows - 1, w);
      RowsHoldStep(dividend, divisor, rows - 1, w);
    }
  }

  lemma {:induction false} ArrayRowsHold(dividend: seq<Net>, divisor: seq<Net>, rows: nat, w: Wires)
    requires |dividend| == 2 * |divisor| - 1 && rows <= |divisor| && !w(Gnd)
    ensures AllHold(ArrayGates(dividend, divisor, rows), w) <==> RowsHold(dividend, divisor, rows, w)
  {
    if rows > 0 {
      ArrayRowsHold(dividend, divisor, rows - 1, w);
      AllHoldAppend(ArrayGates(dividend, divisor, rows - 1),
                    RowGates(dividend, divisor, rows - 1, RowLength(|divisor|, rows - 1)), w);
    }
  }

  lemma {:induction false} ArrayGatesHold(dividend: seq<Net>, divisor: seq<Net>, rows: nat, w: Wires)
    requires |dividend| == 2 * |divisor| - 1 && rows <= |divisor|
    requires !w(Gnd)
    ensures AllHold(ArrayGates(dividend, divisor, rows), w)
       <==> forall i: nat, j: nat {:trigger CellGates(dividend, divisor, i, j)} ::
              i < rows && InArray(|divisor|, i, j) ==> AllHold(CellGates(dividend, divisor, i, j), w)
  {
    ArrayRowsHold(dividend, divisor, rows, w);
    RowsHoldMeans(dividend, divisor, rows, w);
  }

  function RowIn(dividend: seq<Net>, n: nat, i: nat): (xs: seq<Net>)
    requires |dividend| == 2 * n - 1 && i < n
    ensures |xs| == RowLength(n, i)
  {
    seq(RowLength(n, i), (j: nat) requires j < RowLength(n, i) => CellX(dividend, n, i, j))
  }

  function RowOut(n: nat, i: nat): (ps: seq<Net>)
    ensures |ps| == RowLength(n, i)
  {
    seq(RowLength(n, i), (j: nat) => Partial(i, j))
  }

  function RowDiff(n: nat, i: nat): (ds: seq<Net>)
    ensures |ds| == RowLength(n, i)
  {
    seq(RowLength(n, i), (j: nat) => Diff(i, j))
  }

  /** One cell subtracts one bit column: x - y - borrow in == difference - 2 * borrow out. */
  lemma {:induction false} CellSubtracts(dividend: seq<Net>, divisor: seq<Net>, i: nat, j: nat, w: Wires)
    requires |dividend| == 2 * |divisor| - 1 && InArray(|divisor|, i, j)
    requires AllHold(CellGates(dividend, divisor, i, j), w)
    ensures Bit(w(CellX(dividend, |divisor|, i, j))) - Bit(w(CellY(divisor, i, j)))
            - Bit(w(CellBorrowIn(|divisor|, i, j)))
         == Bit(w(Diff(i, j))) - 2 * Bit(w(Borrow(i, j)))
    ensures w(Control(i, j)) == w(CellControl(|divisor|, i, j))
    ensures w(Partial(i, j)) == if w(Control(i, j)) then w(Diff(i, j)) else w(CellX(dividend, |divisor|, i, j))
    ensures j + 1 == RowLength(|divisor|, i) ==> w(NoBorrow(i)) == !w(Borrow(i, j))
  {
    var n := |divisor|;
    var x, c := CellX(dividend, n, i, j), CellControl(n, i, j);
    var gs := CellGates(dividend, divisor, i, j);
    assert FullSub(x, CellY(divisor, i, j), CellBorrowIn(n, i, j), Diff(i, j), Borrow(i, j)) in gs;
    assert Smux(c, x, Diff(i, j), Partial(i, j)) in gs;
    assert Buf(c, Control(i, j)) in gs;
    if j + 1 == RowLength(n, i) {
      assert Not(Borrow(i, j), NoBorrow(i)) in gs;
    }
  }

  ghost function BorrowAfter(i: nat, k: nat, w: Wires): bool {
    k > 0 && w(Borrow(i, k - 1))
  }

  /** x - y is d, with a borrow of weight p. */
  ghost predicate Borrows(x: nat, y: nat, d: nat, p: nat, b: bool) {
    x - y == d - p * Bit(b)
  }

  /** One more column of weight p: the borrow below it goes in, and the one of twice the weight comes out. */
  lemma {:induction false} ColumnBorrows(x: nat, y: nat, d: nat, p: nat, b: bool, x1: nat, y1: nat, d1: nat, b1: bool)
    requires Borrows(x, y, d, p, b) && x1 - y1 - Bit(b) == d1 - 2 * Bit(b1)
    ensures Borrows(x + p * x1, y + p * y1, d + p * d1, 2 * p, b1)
  {
    assert p * (x1 - y1 - Bit(b)) == p * x1 - p * y1 - p * Bit(b);
    assert p * (d1 - 2 * Bit(b1)) == p * d1 - 2 * p * Bit(b1);
  }

  /** The first k columns of a row, k at most the divisor width, subtract word from word. */
  lemma {:induction false} ColumnsSubtract(dividend: seq<Net>, divisor: seq<Net>, i: nat, k: nat, w: Wires)
    requires |dividend| == 2 * |divisor| - 1 && i < |divisor| && k <= |divisor|
    requires CellsHold(dividend, divisor, w)
    ensures Borrows(Val(Bus(RowIn(dividend, |divisor|, i), w)[..k]), Val(Bus(divisor, w)[..k]),
                    Val(Bus(RowDiff(|divisor|, i), w)[..k]), Pow2(k), BorrowAfter(i, k, w))
  {
    var n := |divisor|;
    var xs, ys, ds := Bus(RowIn(dividend, n, i), w), Bus(divisor, w), Bus(RowDiff(n, i), w);
    if k > 0 {
      ColumnsSubtract(dividend, divisor, i, k - 1, w);
      assert InArray(n, i, k - 1);
      CellSubtracts(dividend, divisor, i, k - 1, w);
      ValTakeStep(xs, k - 1);
      ValTakeStep(ys, k - 1);
      ValTakeStep(ds, k - 1);
      assert w(CellBorrowIn(n, i, k - 1)) == BorrowAfter(i, k - 1, w) || (k == 1 && !w(Gnd));
      ColumnBorrows(Val(xs[..k - 1]), Val(ys[..k - 1]), Val(ds[..k - 1]), Pow2(k - 1), BorrowAfter(i, k - 1, w),
                    Bit(xs[k - 1]), Bit(ys[k - 1]), Bit(ds[k - 1]), BorrowAfter(i, k, w));
    }
  }

  /** The last cell of a long row takes over the borrow of the columns below it. */
  lemma {:induction false} TopColumnSubtracts(dividend: seq<Net>, divisor: seq<Net>, i: nat, w: Wires)
    requires |dividend| == 2 * |divisor| - 1 && 0 < i < |divisor|
    requires CellsHold(dividend, divisor, w)
    ensures var n := |divisor|;
      Borrows(Val(Bus(RowIn(dividend, n, i), w)), Val(Bus(divisor, w)), Val(Bus(RowDiff(n, i), w)),
              Pow2(n + 1), w(Borrow(i, n)))
  {
    var n := |divisor|;
    var xs, ys, ds := Bus(RowIn(dividend, n, i), w), Bus(divisor, w), Bus(RowDiff(n, i), w);
    ColumnsSubtract(dividend, divisor, i, n, w);
    assert ys[..n] == ys;
    assert InArray(n, i, n);
    CellSubtracts(dividend, divisor, i, n, w);
    ValTakeStep(xs, n);
    ValTakeStep(ds, n);
    assert xs[..n + 1] == xs && ds[..n + 1] == ds;
    ColumnBorrows(Val(xs[..n]), Val(ys), Val(ds[..n]), Pow2(n), BorrowAfter(i, n, w),
                  Bit(xs[n]), 0, Bit(ds[n]), w(Borrow(i, n)));
  }

  /** The whole row subtracts the divisor; the last borrow is set exactly when the divisor is larger. */
  lemma {:induction false} RowSubtracts(dividend: seq<Net>, divisor: seq<Net>, i: nat, w: Wires)
    requires |dividend| == 2 * |divisor| - 1 && i < |divisor|
    requires CellsHold(dividend, divisor, w)
    ensures var k := RowLength(|divisor|, i);
      Number(RowIn(dividend, |divisor|, i), w) - Number(divisor, w)
      == Number(RowDiff(|divisor|, i), w) - Pow2(k) * Bit(w(Borrow(i, k - 1)))
  {
    if i == 0 {
      var n := |divisor|;
      var xs, ys, ds := Bus(RowIn(dividend, n, 0), w), Bus(divisor, w), Bus(RowDiff(n, 0), w);
      ColumnsSubtract(dividend, divisor, 0, n, w);
      assert ys[..n] == ys && xs[..n] == xs && ds[..n] == ds;
    } else {
      TopColumnSubtracts(dividend, divisor, i, w);
    }
  }

  /** The inverted last borrow reaches every cell of its row. */
  lemma {:induction false} ControlReaches(dividend: seq<Net>, divisor: seq<Net>, i: nat, j: nat, w: Wires)
    requires |dividend| == 2 * |divisor| - 1 && InArray(|divisor|, i, j)
    requires CellsHold(dividend, divisor, w)
    ensures w(Control(i, j)) == !w(Borrow(i, RowLength(|divisor|, i) - 1))
    decreases RowLength(|divisor|, i) - j
  {
    CellSubtracts(dividend, divisor, i, j, w);
    if j + 1 < RowLength(|divisor|, i) {
      ControlReaches(dividend, divisor, i, j + 1, w);
    }
  }

  /** A row is one step of restoring division. */
  lemma {:induction false} RowRestores(dividend: seq<Net>, divisor: seq<Net>, i: nat, w: Wires)
    requires |dividend| == 2 * |divisor| - 1 && i < |divisor|
    requires CellsHold(dividend, divisor, w)
    ensures var x, d := Number(RowIn(dividend, |divisor|, i), w), Number(divisor, w);
      && w(Control(i, 0)) == (x >= d)
      && Number(RowOut(|divisor|, i), w) == if x >= d then x - d else x
  {
    var n := |divisor|;
    var k := RowLength(n, i);
    var xs, ds, ps := Bus(RowIn(dividend, n, i), w), Bus(RowDiff(n, i), w), Bus(RowOut(n, i), w);
    RowSubtracts(dividend, divisor, i, w);
    ValBound(ds);
    ValBound(xs);
    assert InArray(n, i, 0);
    ControlReaches(dividend, divisor, i, 0, w);
    forall j: nat | j < k
      ensures ps[j] == if w(Control(i, 0)) then ds[j] else xs[j]
    {
      assert InArray(n, i, j);
      ControlReaches(dividend, divisor, i, j, w);
      CellSubtracts(dividend, divisor, i, j, w);
    }
    assert ps == if w(Control(i, 0)) then ds else xs;
  }

  // ----- the whole array -----

  /** The quotient bits of rows 0 to i; row i is the least significant. */
  ghost function QuotientBits(i: nat, w: Wires): (q: seq<bool>)
    ensures |q| == i + 1
    ensures forall k :: 0 <= k <= i ==> q[k] == w(Control(i - k, 0))
  {
    seq(i + 1, (k: nat) requires k <= i => w(Control(i - k, 0)))
  }

  lemma {:induction false} QuotientGrows(i: nat, w: Wires)
    ensures Val(QuotientBits(i, w)) == Bit(w(Control(i, 0))) + if i == 0 then 0 else 2 * Val(QuotientBits(i - 1, w))
  {
    if i > 0 {
      assert QuotientBits(i, w)[1..] == QuotientBits(i - 1, w);
    }
  }

  /** The dividend shifted right until only the bits that rows 0 to i have seen are left. */
  ghost function Seen(dividend: seq<Net>, n: nat, i: nat, w: Wires): nat
    requires |dividend| == 2 * n - 1 && i < n
  {
    Val(Bus(dividend, w)[n - 1 - i..])
  }

  /** A row takes over all bits of the row above but the top one, below them one more dividend bit. */
  lemma {:induction false} NextRowInput(dividend: seq<Net>, divisor: seq<Net>, i: nat, w: Wires)
    requires |dividend| == 2 * |divisor| - 1 && i + 1 < |divisor|
    ensures Number(RowIn(dividend, |divisor|, i + 1), w)
         == Bit(w(dividend[|divisor| - 2 - i])) + 2 * (Number(RowOut(|divisor|, i), w) % Pow2(|divisor|))
  {
    var n := |divisor|;
    var xs, ps := Bus(RowIn(dividend, n, i + 1), w), Bus(RowOut(n, i), w);
    assert xs[1..] == ps[..n];
    ValTakeMod(ps, n);
  }

  lemma {:induction false} FirstRowInput(dividend: seq<Net>, n: nat, w: Wires)
    requires n >= 1 && |dividend| == 2 * n - 1
    ensures Number(RowIn(dividend, n, 0), w) == Seen(dividend, n, 0, w)
    ensures Number(dividend, w) == Val(Bus(dividend, w)[..n - 1]) + Pow2(n - 1) * Seen(dividend, n, 0, w)
  {
    var bs := Bus(dividend, w);
    assert Bus(RowIn(dividend, n, 0), w) == bs[n - 1..];
    assert bs == bs[..n - 1] + bs[n - 1..];
    ValAppend(bs[..n - 1], bs[n - 1..]);
  }

  /** The quotient of dd by d has at most n bits. */
  ghost predicate QuotientFitsIn(dd: nat, d: nat, n: nat) {
    d > 0 && dd < d * Pow2(n)
  }

  ghost predicate Decomposes(dd: nat, d: nat, q: nat, r: nat) {
    dd == q * d + r && r < d
  }

  lemma {:induction false} MulLess(p: nat, x: int, y: int)
    requires p * x < p * y
    ensures x < y
  {
  }

  /** An operand below d * 2^n starts the first row below 2d. */
  lemma {:induction false} FirstRowFits(dd: nat, low: nat, x: nat, d: nat, n: nat)
    requires n >= 1 && dd == low + Pow2(n - 1) * x && dd < d * Pow2(n)
    ensures x < 2 * d
  {
    var p := Pow2(n - 1);
    assert d * Pow2(n) == p * (2 * d);
    MulLess(p, x, 2 * d);
  }

  lemma {:induction false} RestoringStep(q: nat, d: nat, r: nat, b: nat)
    ensures var x := b + 2 * r;
      (Bit(x >= d) + 2 * q) * d + (if x >= d then x - d else x) == b + 2 * (q * d + r)
  {
    assert (1 + 2 * q) * d == d + 2 * (q * d);
    assert (0 + 2 * q) * d == 2 * (q * d);
  }

  /** One restoring step keeps the decomposition. */
  lemma {:induction false} DecomposesNext(x: nat, d: nat, q: nat, r: nat, b: nat)
    requires Decomposes(x, d, q, r) && b <= 1
    ensures var next := b + 2 * r;
      Decomposes(b + 2 * x, d, Bit(next >= d) + 2 * q, if next >= d then next - d else next)
  {
    RestoringStep(q, d, r, b);
  }

  /** Row i sees one dividend bit more than the row above. */
  lemma {:induction false} SeenNext(dividend: seq<Net>, n: nat, i: nat, w: Wires)
    requires |dividend| == 2 * n - 1 && 0 < i < n
    ensures Seen(dividend, n, i, w) == Bit(w(dividend[n - 1 - i])) + 2 * Seen(dividend, n, i - 1, w)
  {
    assert Bus(dividend, w)[n - 1 - i..][1..] == Bus(dividend, w)[n - i..];
  }

  lemma {:induction false} DecomposesBelow(x: nat, d: nat, q: nat, r: nat)
    requires Decomposes(x, d, q, r)
    ensures r < d
  {
  }

  lemma {:induction false} FirstRowDecomposes(dividend: seq<Net>, divisor: seq<Net>, w: Wires)
    requires |divisor| >= 1 && |dividend| == 2 * |divisor| - 1
    requires CellsHold(dividend, divisor, w)
    requires QuotientFitsIn(Number(dividend, w), Number(divisor, w), |divisor|)
    ensures Decomposes(Seen(dividend, |divisor|, 0, w), Number(divisor, w), Val(QuotientBits(0, w)),
                       Number(RowOut(|divisor|, 0), w))
  {
    var n := |divisor|;
    FirstRowInput(dividend, n, w);
    FirstRowFits(Number(dividend, w), Val(Bus(dividend, w)[..n - 1]), Seen(dividend, n, 0, w), Number(divisor, w), n);
    RowRestores(dividend, divisor, 0, w);
    QuotientGrows(0, w);
  }

  /** The invariant of restoring division: what has been seen is quotient * divisor + remainder. */
  lemma {:induction false} RowInvariant(dividend: seq<Net>, divisor: seq<Net>, i: nat, w: Wires)
    requires |dividend| == 2 * |divisor| - 1 && i < |divisor|
    requires CellsHold(dividend, divisor, w)
    requires QuotientFitsIn(Number(dividend, w), Number(divisor, w), |divisor|)
    ensures Decomposes(Seen(dividend, |divisor|, i, w), Number(divisor, w), Val(QuotientBits(i, w)),
                       Number(RowOut(|divisor|, i), w))
  {
    var n, d := |divisor|, Number(divisor, w);
    if i == 0 {
      FirstRowDecomposes(dividend, divisor, w);
    } else {
      RowInvariant(dividend, divisor, i - 1, w);
      var x, q, r := Seen(dividend, n, i - 1, w), Val(QuotientBits(i - 1, w)), Number(RowOut(n, i - 1), w);
      DecomposesBelow(x, d, q, r);
      ValBound(Bus(divisor, w));
      ModUnique(r, Pow2(n), 0, r);
      NextRowInput(dividend, divisor, i - 1, w);
      SeenNext(dividend, n, i, w);
      RowRestores(dividend, divisor, i, w);
      QuotientGrows(i, w);
      DecomposesNext(x, d, q, r, Bit(w(dividend[n - 1 - i])));
    }
  }

  lemma {:induction false} SeenAll(dividend: seq<Net>, n: nat, w: Wires)
    requires n >= 1 && |dividend| == 2 * n - 1
    ensures Seen(dividend, n, n - 1, w) == Number(dividend, w)
  {
    assert Bus(dividend, w)[0..] == Bus(dividend, w);
  }

  lemma {:induction false} QuotientExact(dd: nat, d: nat, q: nat, r: nat, p: nat)
    requires d > 0 && q < p
    requires dd < d * p ==> dd == q * d + r && r < d
    ensures q == dd / d <==> dd < d * p
    ensures dd < d * p ==> r == dd % d
  {
    if dd < d * p {
      ModUnique(dd, d, q, r);
    } else {
      assert d * p >= d * (q + 1);
      assert dd == d * (dd / d) + dd % d;
    }
  }

  /** The remainder pins are the last row's bits but the top one. */
  lemma {:induction false} LastRowRemainder(divisor: seq<Net>, w: Wires)
    requires |divisor| >= 2
    ensures Number(RemainderNets(|divisor|), w) == Number(RowOut(|divisor|, |divisor| - 1), w) % Pow2(|divisor|)
  {
    var n := |divisor|;
    var ps := Bus(RowOut(n, n - 1), w);
    assert Bus(RemainderNets(n), w) == ps[..n];
    ValTakeMod(ps, n);
  }

  lemma {:induction false} ArrayDecomposes(dividend: seq<Net>, divisor: seq<Net>, w: Wires)
    requires |divisor| >= 2 && |dividend| == 2 * |divisor| - 1
    requires CellsHold(dividend, divisor, w)
    requires QuotientFitsIn(Number(dividend, w), Number(divisor, w), |divisor|)
    ensures Decomposes(Number(dividend, w), Number(divisor, w), Val(QuotientBits(|divisor| - 1, w)),
                       Number(RemainderNets(|divisor|), w))
  {
    var i, d := |divisor| - 1, Number(divisor, w);
    RowInvariant(dividend, divisor, i, w);
    SeenAll(dividend, |divisor|, w);
    DecomposesBelow(Seen(dividend, |divisor|, i, w), d, Val(QuotientBits(i, w)), Number(RowOut(|divisor|, i), w));
    LastRowRemainder(divisor, w);
    ValBound(Bus(divisor, w));
    ModUnique(Number(RowOut(|divisor|, i), w), Pow2(|divisor|), 0, Number(RowOut(|divisor|, i), w));
  }

  /**
   * The cell array divides exactly when the quotient fits in n bits: the quotient pins are right
   * if and only if the dividend is below d * 2^n, and then the remainder pins are right as well.
   */
  lemma {:induction false} ArrayDivides(dividend: seq<Net>, divisor: seq<Net>, w: Wires)
    requires |divisor| >= 2 && |dividend| == 2 * |divisor| - 1
    requires AllHold(ArrayGates(dividend, divisor, |divisor|), w)
    requires Number(divisor, w) > 0
    ensures var n, dd, d := |divisor|, Number(dividend, w), Number(divisor, w);
      && (Val(QuotientBits(n - 1, w)) == dd / d <==> dd < d * Pow2(n))
      && (dd < d * Pow2(n) ==> Number(RemainderNets(n), w) == dd % d)
  {
    var n, dd, d := |divisor|, Number(dividend, w), Number(divisor, w);
    var q, r := Val(QuotientBits(n - 1, w)), Number(RemainderNets(n), w);
    ArrayGatesHold(dividend, divisor, n, w);
    ValBound(QuotientBits(n - 1, w));
    if dd < d * Pow2(n) {
      ArrayDecomposes(dividend, divisor, w);
    }
    QuotientExact(dd, d, q, r, Pow2(n));
  }

  lemma {:induction false} MulMonotone(x: nat, y: nat, p: nat)
    requires x <= y
    ensures x * p <= y * p
  {
  }

  /** Two conditions a caller can check, each of which makes the quotient fit. */
  lemma {:induction false} QuotientFits(m: nat, n: nat, w: Wires)
    requires n >= 1 && m <= 2 * n - 1
    requires Number(DivisorNets(n), w) > 0
    requires m <= n || w(Divisor(n - 1))
    ensures Number(OperandNets(m), w) < Number(DivisorNets(n), w) * Pow2(n)
  {
    var dd, d := Number(OperandNets(m), w), Number(DivisorNets(n), w);
    ValBound(Bus(OperandNets(m), w));
    if m <= n {
      Pow2Monotone(m, n);
      MulMonotone(1, d, Pow2(n));
    } else {
      var ds := Bus(DivisorNets(n), w);
      ValTakeStep(ds, n - 1);
      assert ds[..n] == ds;
      Pow2Monotone(m, 2 * n - 1);
      Pow2Add(n - 1, n);
      MulMonotone(Pow2(n - 1), d, Pow2(n));
    }
  }

  // ----- the output pins -----

  lemma {:induction false} DivideOutputs(n: nat, width: nat, w: Wires)
    requires n >= 2
    requires AllHold(OutputGates(Divide, width, QuotientNets(n), RemainderNets(n)), w)
    ensures Number(OutputNets(width), w) == Val(QuotientBits(n - 1, w)) % Pow2(width)
  {
    var gs := OutputGates(Divide, width, QuotientNets(n), RemainderNets(n));
    var os, qs := Bus(OutputNets(width), w), QuotientBits(n - 1, w);
    forall k: nat | k < width
      ensures os[k] == (k < n && qs[k])
    {
      var i := if width < n then width - 1 - k else if k < n then n - 1 - k else k;
      assert gs[i] in gs;
    }
    ValFitted(os, qs);
  }

  lemma {:induction false} ModuloOutputs(n: nat, width: nat, w: Wires)
    requires n >= 2
    requires AllHold(OutputGates(Modulo, width, QuotientNets(n), RemainderNets(n)), w)
    ensures Number(OutputNets(width), w) == Number(RemainderNets(n), w) % Pow2(width)
  {
    var gs := OutputGates(Modulo, width, QuotientNets(n), RemainderNets(n));
    var os, rs := Bus(OutputNets(width), w), Bus(RemainderNets(n), w);
    forall k: nat | k < width
      ensures os[k] == (k < n && rs[k])
    {
      assert gs[k] in gs;
    }
    ValFitted(os, rs);
  }

  /** Padding leaves the dividend's number alone. */
  lemma {:induction false} PaddedNumber(m: nat, n: nat, w: Wires)
    requires m <= 2 * n - 1 && !w(Gnd)
    ensures Number(PaddedDividend(m, n), w) == Number(OperandNets(m), w)
  {
    assert Bus(PaddedDividend(m, n), w) == Bus(OperandNets(m), w) + Zeros(2 * n - 1 - m);
    ValPadded(Bus(OperandNets(m), w), 2 * n - 1 - m);
  }

  lemma {:induction false} DividerDivides(kind: Kind, m: nat, n: nat, width: nat, w: Wires)
    requires n >= 2 && m <= 2 * n - 1
    requires AllHold(DividerGates(kind, m, n, width), w)
    ensures Divides(kind, m, n, width, w)
  {
    var dividend, divisor := PaddedDividend(m, n), DivisorNets(n);
    AllHoldAppend(ArrayGates(dividend, divisor, n), OutputGates(kind, width, QuotientNets(n), RemainderNets(n)), w);
    PaddedNumber(m, n, w);
    if Number(divisor, w) > 0 {
      ArrayDivides(dividend, divisor, w);
      if kind.Divide? {
        DivideOutputs(n, width, w);
      } else {
        ModuloOutputs(n, width, w);
      }
    }
  }

  /** With outputs enough for the quotient pins, they are right exactly when the quotient fits in n bits. */
  lemma {:induction false} DividerExact(m: nat, n: nat, width: nat, w: Wires)
    requires n >= 2 && m <= 2 * n - 1 && width >= n
    requires AllHold(DividerGates(Divide, m, n, width), w) && Number(DivisorNets(n), w) > 0
    ensures var dd, d := Number(OperandNets(m), w), Number(DivisorNets(n), w);
      Number(OutputNets(width), w) == dd / d <==> dd < d * Pow2(n)
  {
    var dividend, divisor := PaddedDividend(m, n), DivisorNets(n);
    AllHoldAppend(ArrayGates(dividend, divisor, n), OutputGates(Divide, width, QuotientNets(n), RemainderNets(n)), w);
    PaddedNumber(m, n, w);
    ArrayDivides(dividend, divisor, w);
    DivideOutputs(n, width, w);
    ValBound(QuotientBits(n - 1, w));
    Pow2Monotone(n, width);
    ModUnique(Val(QuotientBits(n - 1, w)), Pow2(width), 0, Val(QuotientBits(n - 1, w)));
  }

  // ----- the generator -----

  /** The netlist under construction. */
  class Netlist {
    var gates: seq<Gate>

    constructor ()
      ensures gates == []
    {
      gates := [];
    }

    method MakeInverter(a: Net, out: Net)
      modifies this
      ensures gates == old(gates) + [Not(a, out)]
    {
      gates := gates + [Not(a, out)];
    }

    /** One controlled-subtract cell: full subtractor, multiplexer and buffer. */
    method MakeCRNode(x: Net, y: Net, bin: Net, control: Net, i: nat, j: nat)
      modifies this
      ensures gates == old(gates)
        + [FullSub(x, y, bin, Diff(i, j), Borrow(i, j)), Smux(control, x, Diff(i, j), Partial(i, j)),
           Buf(control, Control(i, j))]
    {
      gates := gates + [FullSub(x, y, bin, Diff(i, j), Borrow(i, j))];
      gates := gates + [Smux(control, x, Diff(i, j), Partial(i, j))];
      gates := gates + [Buf(control, Control(i, j))];
    }

    method MakeBuffer(a: Net, out: Net)
      modifies this
      ensures gates == old(gates) + [Buf(a, out)]
    {
      gates := gates + [Buf(a, out)];
    }

    /** Places the cell of row i and column j: picks its four input nets, then makes it. */
    method PlaceCell(dividend: seq<Net>, divisor: seq<Net>, i: nat, j: nat, offset: nat)
      requires |dividend| == 2 * |divisor| - 1 && InArray(|divisor|, i, j)
      requires offset == |divisor| + i
      modifies this
      ensures gates == old(gates) + CellGates(dividend, divisor, i, j)
    {
      var numCRPerRow := if i == 0 then |divisor| else |divisor| + 1;
      var dividendIdx := |dividend| - offset + j;
      var x, y, bin, control: Net;
      if i == 0 || j == 0 {
        x := dividend[dividendIdx];
      } else {
        x := Partial(i - 1, j - 1);
      }
      if i != 0 && j == numCRPerRow - 1 {
        y := Borrow(i, j - 1);
      } else {
        y := divisor[j];
      }
      if j == 0 || (i != 0 && j == numCRPerRow - 1) {
        bin := Gnd;
      } else {
        bin := Borrow(i, j - 1);
      }
      if j == numCRPerRow - 1 {
        MakeInverter(Borrow(i, j), NoBorrow(i));
        control := NoBorrow(i);
      } else {
        control := Control(i, j + 1);
      }
      MakeCRNode(x, y, bin, control, i, j);
    }

    /** Places one cell and collects its control bit for the quotient or its partial bit for the remainder. */
    method PlaceAndCollect(dividend: seq<Net>, divisor: seq<Net>, i: nat, j: nat, offset: nat, quotient0: seq<Net>,
                           remainder0: seq<Net>)
      returns (quotient: seq<Net>, remainder: seq<Net>)
      requires |dividend| == 2 * |divisor| - 1 && InArray(|divisor|, i, j)
      requires offset == |divisor| + i
      modifies this
      ensures gates == old(gates) + CellGates(dividend, divisor, i, j)
      ensures quotient == quotient0 + if j == 0 then [Control(i, 0)] else []
      ensures remainder == remainder0 +
        if i == |divisor| - 1 && j + 1 != RowLength(|divisor|, i) then [Partial(i, j)] else []
    {
      quotient, remainder := quotient0, remainder0;
      var divisorSize := |divisor|;
      var numCRPerRow := if i == 0 then divisorSize else divisorSize + 1;
      PlaceCell(dividend, divisor, i, j, offset);
      if j == 0 {
        quotient := quotient + [Control(i, j)];
      }
      if i == divisorSize - 1 && j != numCRPerRow - 1 {
        remainder := remainder + [Partial(i, j)];
      }
    }

    /** Adds one row of cells. */
    method BuildRow(dividend: seq<Net>, divisor: seq<Net>, i: nat, offset: nat,
                    quotient0: seq<Net>, remainder0: seq<Net>)
      returns (quotient: seq<Net>, remainder: seq<Net>)
      requires |dividend| == 2 * |divisor| - 1 && i < |divisor|
      requires offset == |divisor| + i
      modifies this
      ensures gates == old(gates) + RowGates(dividend, divisor, i, RowLength(|divisor|, i))
      ensures quotient == quotient0 + [Control(i, 0)]
      ensures remainder == remainder0 + RowRemainder(|divisor|, i, |divisor|)
    {
      quotient, remainder := quotient0, remainder0;
      var divisorSize := |divisor|;
      var numCRPerRow := if i == 0 then divisorSize else divisorSize + 1;
      ghost var start := Collected(gates, quotient, remainder);
      RowStarts(dividend, divisor, i, start);
      var j := 0;
      while j < numCRPerRow
        invariant 0 <= j <= numCRPerRow
        invariant RowSoFar(dividend, divisor, i, j, start, Collected(gates, quotient, remainder))
      {
        ghost var before := Collected(gates, quotient, remainder);
        quotient, remainder := PlaceAndCollect(dividend, divisor, i, j, offset, quotient, remainder);
        RowGrows(dividend, divisor, i, j, start, before, Collected(gates, quotient, remainder));
        j := j + 1;
      }
    }

    /** Builds the cell array, row by row, collecting the quotient and remainder pins as it goes. */
    method ImplementDivision(dividend: seq<Net>, divisor: seq<Net>) returns (quotient: seq<Net>, remainder: seq<Net>)
      requires |dividend| == 2 * |divisor| - 1
      modifies this
      ensures gates == old(gates) + ArrayGates(dividend, divisor, |divisor|)
      ensures quotient == QuotientNets(|divisor|)
      ensures remainder == if |divisor| >= 2 then RemainderNets(|divisor|) else []
    {
      quotient, remainder := [], [];
      var divisorSize := |divisor|;
      var offset := divisorSize;
      ghost var start := gates;
      assert start + [] == start;
      var i := 0;
      while i < divisorSize
        invariant 0 <= i <= divisorSize && offset == divisorSize + i
        invariant RowsSoFar(dividend, divisor, i, start, Collected(gates, quotient, remainder))
      {
        ghost var before := Collected(gates, quotient, remainder);
        quotient, remainder := BuildRow(dividend, divisor, i, offset, quotient, remainder);
        RowAdded(dividend, divisor, i, start, before, Collected(gates, quotient, remainder));
        offset := offset + 1;
        i := i + 1;
      }
      WholeRemainder(divisorSize, divisorSize);
    }

    /** Buffers the quotient pins, top bit first, onto the node's output pins, zero-extending or dropping high bits. */
    method ConnectQuotient(width: nat, quotient: seq<Net>, ghost remainder: seq<Net>)
      requires |quotient| == |remainder|
      modifies this
      ensures gates == old(gates) + OutputGates(Divide, width, quotient, remainder)
    {
      var newWidth := |quotient|;
      ghost var all := OutputGates(Divide, width, quotient, remainder);
      var i := 0;
      if width >= newWidth {
        while i < width
          invariant 0 <= i <= width && gates == old(gates) + all[..i]
        {
          if i < newWidth {
            MakeBuffer(quotient[i], Out(newWidth - i - 1));
          } else {
            MakeBuffer(Gnd, Out(i));
          }
          assert all[..i + 1] == all[..i] + [all[i]];
          i := i + 1;
        }
      } else {
        var extension := newWidth - width;
        while i < newWidth
          invariant 0 <= i <= newWidth && gates == old(gates) + all[..if i < extension then 0 else i - extension]
        {
          if i >= extension {
            MakeBuffer(quotient[i], Out(newWidth - i - 1));
            assert all[..i - extension + 1] == all[..i - extension] + [all[i - extension]];
          }
          i := i + 1;
        }
      }
      assert all[..width] == all;
    }

    method ConnectRemainder(width: nat, ghost quotient: seq<Net>, remainder: seq<Net>)
      requires |quotient| == |remainder|
      modifies this
      ensures gates == old(gates) + OutputGates(Modulo, width, quotient, remainder)
    {
      var newWidth := |remainder|;
      ghost var all := OutputGates(Modulo, width, quotient, remainder);
      var i := 0;
      if width >= newWidth {
        while i < width
          invariant 0 <= i <= width && gates == old(gates) + all[..i]
        {
          if i < newWidth {
            MakeBuffer(remainder[i], Out(i));
          } else {
            MakeBuffer(Gnd, Out(i));
          }
          assert all[..i + 1] == all[..i] + [all[i]];
          i := i + 1;
        }
      } else {
        while i < newWidth
          invariant 0 <= i <= newWidth && gates == old(gates) + all[..if i < width then i else width]
        {
          if i < width {
            MakeBuffer(remainder[i], Out(i));
            assert all[..i + 1] == all[..i] + [all[i]];
          }
          i := i + 1;
        }
      }
      assert all[..width] == all;
    }

    method ConnectDivOutputPins(kind: Kind, width: nat, quotient: seq<Net>, remainder: seq<Net>)
      requires |quotient| == |remainder|
      modifies this
      ensures gates == old(gates) + OutputGates(kind, width, quotient, remainder)
    {
      if kind.Divide? {
        ConnectQuotient(width, quotient, remainder);
      } else {
        ConnectRemainder(width, quotient, remainder);
      }
    }

    /**
     * Replaces a divide or modulo node with operand widths m and n and the given output width.
     * The size checks of the source are the two failures: a dividend wider than 2n-1 bits, and
     * a one-bit divisor, for which no remainder pin is ever collected.
     */
    method ResolveDivideNode(kind: Kind, m: nat, n: nat, width: nat) returns (ok: bool)
      modifies this
      ensures ok <==> n >= 2 && m <= 2 * n - 1
      ensures ok ==> gates == old(gates) + DividerGates(kind, m, n, width)
      ensures ok ==> forall w: Wires {:trigger AllHold(gates, w)} :: AllHold(gates, w) ==> Divides(kind, m, n, width, w)
    {
      var dividend, divisor := ModifyDivSignalSizes(m, n);
      if |dividend| != 2 * |divisor| - 1 {
        return false;
      }
      var quotient, remainder := ImplementDivision(dividend, divisor);
      if |quotient| != n || |quotient| != |remainder| {
        return false;
      }
      ConnectDivOutputPins(kind, width, quotient, remainder);
      assert gates == old(gates) + DividerGates(kind, m, n, width);
      forall w: Wires | AllHold(gates, w)
        ensures Divides(kind, m, n, width, w)
      {
        AllHoldAppend(old(gates), DividerGates(kind, m, n, width), w);
        DividerDivides(kind, m, n, width, w);
      }
      ok := true;
    }
  }
}
