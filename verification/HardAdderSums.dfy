/** What a chain of hard adder cells computes. */
module HardAdderSums {
  import opened Bits
  import opened Nets
  import opened HardAdder

  function SumNets(i: nat, s: nat): (nets: seq<Net>)
    ensures |nets| == s
  {
    seq(s, (j: nat) => Sum(i, j))
  }

  function OperandNets(isA: bool, width: nat): (nets: seq<Net>)
    ensures |nets| == width
  {
    seq(width, (k: nat) => PortNet(isA, k))
  }

  /** x + y + carry in is the sum z with a carry out of weight p. */
  ghost predicate SumsTo(x: nat, y: nat, c0: nat, z: nat, p: nat, c: nat) {
    x + y + c0 == z + p * c
  }

  /** A hard adder block: a + b + carry in == sum + 2^s * carry out. */
  ghost predicate CellHolds(row: seq<Net>, i: nat, s: nat, w: Wires)
    requires |row| == 2 * s + 1
  {
    SumsTo(Number(row[..s], w), Number(row[s..2 * s], w), Bit(w(row[2 * s])), Number(SumNets(i, s), w), Pow2(s),
           Bit(w(Cout(i))))
  }

  ghost predicate ConstantsHold(w: Wires) {
    w(Vcc) && !w(Gnd) && !w(Pad) && !w(Null)
  }

  ghost predicate ChainHolds(cells: seq<seq<Net>>, s: nat, w: Wires)
    requires forall i :: 0 <= i < |cells| ==> |cells[i]| == 2 * s + 1
  {
    ConstantsHold(w) && forall i: nat {:trigger CellHolds(cells[i], i, s, w)} :: i < |cells| ==>
      CellHolds(cells[i], i, s, w)
  }

  datatype Config = Config(a: nat, b: nat, s: nat, offset: nat)

  /** The wiring the splitter leaves behind. */
  ghost predicate Wired(cells: seq<seq<Net>>, c: Config, cin: Net) {
    && c.s >= 1 && c.offset <= 1
    && forall i {:trigger cells[i]} :: 0 <= i < |cells| ==>
      && |cells[i]| == 2 * c.s + 1
      && cells[i][2 * c.s] == (if i == 0 then cin else Cout(i - 1))
      && forall j :: 0 <= j < c.s ==>
        && SlotWired(cells[i][j], true, c.a, c.s, c.offset, i, j)
        && SlotWired(cells[i][c.s + j], false, c.b, c.s, c.offset, i, j)
  }

  /** Operand bit k sits at position k + offset of the chain. */
  lemma {:induction false} SlotMeans(width: nat, s: nat, offset: nat, i: nat, j: nat)
    requires j < s && (offset == 1 || (offset == 0 && s == 1))
    ensures var t := Pos(s, i, j);
      InitIndex(width, s, offset, i, j) == if offset <= t < width + offset then t - offset else -1
  {
    PosBounds(s, i, i);
  }

  ghost function FlatBit(isA: bool, width: nat, offset: nat, t: nat, w: Wires): bool {
    if t < offset then isA else t < width + offset && w(PortNet(isA, t - offset))
  }

  /** The word a port of the whole chain sees: a dummy bit, then the operand, then zeros. */
  ghost function Flat(isA: bool, width: nat, offset: nat, n: nat, w: Wires): (bs: seq<bool>)
    ensures |bs| == n
  {
    seq(n, (t: nat) => FlatBit(isA, width, offset, t, w))
  }

  lemma {:induction false} SlotIsBit(net: Net, isA: bool, width: nat, s: nat, offset: nat, i: nat, j: nat, w: Wires)
    requires ConstantsHold(w) && j < s && (offset == 1 || (offset == 0 && s == 1))
    requires SlotWired(net, isA, width, s, offset, i, j)
    ensures w(net) == FlatBit(isA, width, offset, Pos(s, i, j), w)
  {
    SlotMeans(width, s, offset, i, j);
    PosBounds(s, i, i);
  }

  ghost predicate PortWired(nets: seq<Net>, isA: bool, width: nat, s: nat, offset: nat, i: nat)
    requires offset <= 1
  {
    |nets| == s && forall j :: 0 <= j < s ==> SlotWired(nets[j], isA, width, s, offset, i, j)
  }

  lemma {:induction false} PortsWired(cells: seq<seq<Net>>, c: Config, cin: Net, k: nat)
    requires Wired(cells, c, cin) && k < |cells|
    ensures |cells[k]| == 2 * c.s + 1 && cells[k][2 * c.s] == if k == 0 then cin else Cout(k - 1)
    ensures PortWired(cells[k][..c.s], true, c.a, c.s, c.offset, k)
    ensures PortWired(cells[k][c.s..2 * c.s], false, c.b, c.s, c.offset, k)
  {
    var row := cells[k];
    forall j | 0 <= j < c.s
      ensures SlotWired(row[..c.s][j], true, c.a, c.s, c.offset, k, j)
      ensures SlotWired(row[c.s..2 * c.s][j], false, c.b, c.s, c.offset, k, j)
    {
      assert row[..c.s][j] == row[j] && row[c.s..2 * c.s][j] == row[c.s + j];
    }
  }

  lemma {:induction false} PortBits(nets: seq<Net>, isA: bool, width: nat, s: nat, offset: nat, i: nat, w: Wires)
    requires ConstantsHold(w) && (offset == 1 || (offset == 0 && s == 1))
    requires PortWired(nets, isA, width, s, offset, i)
    ensures forall j: nat :: j < s ==> w(nets[j]) == FlatBit(isA, width, offset, Pos(s, i, j), w)
  {
    forall j: nat | j < s
      ensures w(nets[j]) == FlatBit(isA, width, offset, Pos(s, i, j), w)
    {
      SlotIsBit(nets[j], isA, width, s, offset, i, j, w);
    }
  }

  lemma {:induction false} SliceOfFlat(nets: seq<Net>, isA: bool, width: nat, s: nat, offset: nat, lo: nat, n: nat,
                                       w: Wires)
    requires |nets| == s && lo + s <= n
    requires forall j: nat :: j < s ==> w(nets[j]) == FlatBit(isA, width, offset, lo + j, w)
    ensures Bus(nets, w) == Flat(isA, width, offset, n, w)[lo..lo + s]
  {
  }

  /** A cell adds its slice of a flat word. */
  lemma {:induction false} PortExtends(nets: seq<Net>, isA: bool, width: nat, s: nat, offset: nat, i: nat, n: nat,
                                       w: Wires)
    requires ConstantsHold(w) && s >= 1 && (offset == 1 || (offset == 0 && s == 1))
    requires PortWired(nets, isA, width, s, offset, i)
    requires Pos(s, i + 1, 0) <= n && Pos(s, i, 0) <= n
    ensures var flat, lo, hi := Flat(isA, width, offset, n, w), Pos(s, i, 0), Pos(s, i + 1, 0);
      Val(flat[..hi]) == Val(flat[..lo]) + Pow2(lo) * Number(nets, w)
  {
    var flat, lo, hi := Flat(isA, width, offset, n, w), Pos(s, i, 0), Pos(s, i + 1, 0);
    PosBounds(s, i, i);
    PortBits(nets, isA, width, s, offset, i, w);
    SliceOfFlat(nets, isA, width, s, offset, lo, n, w);
    assert flat[..hi] == flat[..lo] + flat[lo..hi];
    ValAppend(flat[..lo], flat[lo..hi]);
  }

  /** The sum bits of the first k cells, as one word. */
  ghost function FlatSum(s: nat, k: nat, w: Wires): (bs: seq<bool>)
    ensures |bs| == Pos(s, k, 0)
  {
    if k == 0 then [] else
      assert Pos(s, k, 0) == Pos(s, k - 1, s);
      FlatSum(s, k - 1, w) + Bus(SumNets(k - 1, s), w)
  }

  lemma {:induction false} FlatSumAt(s: nat, k: nat, i: nat, j: nat, w: Wires)
    requires i < k && j < s
    ensures Pos(s, i, j) < Pos(s, k, 0) && FlatSum(s, k, w)[Pos(s, i, j)] == w(Sum(i, j))
  {
    PosBounds(s, k - 1, k);
    if i < k - 1 {
      FlatSumAt(s, k - 1, i, j, w);
    } else {
      assert FlatSum(s, k, w)[Pos(s, i, j)] == Bus(SumNets(k - 1, s), w)[j];
    }
  }

  /** A value grown by x at weight p. */
  ghost predicate GrownBy(v': nat, v: nat, p: nat, x: nat) {
    v' == v + p * x
  }

  lemma {:induction false} CarryChain(fa: nat, fb: nat, fs: nat, ra: nat, rb: nat, rs: nat, c0: nat, c: nat, c': nat,
                                      p: nat, q: nat, fa': nat, fb': nat, fs': nat, p': nat)
    requires SumsTo(fa, fb, c0, fs, p, c) && SumsTo(ra, rb, c, rs, q, c')
    requires GrownBy(fa', fa, p, ra) && GrownBy(fb', fb, p, rb) && GrownBy(fs', fs, p, rs) && GrownBy(p', 0, p, q)
    ensures SumsTo(fa', fb', c0, fs', p', c')
  {
    assert p * (ra + rb + c) == p * (rs + q * c');
    assert p * (q * c') == (p * q) * c';
    assert p * (rs + q * c') == p * rs + p * (q * c');
    assert p * (ra + rb + c) == p * ra + p * rb + p * c;
  }

  /** The carry into cell k. */
  ghost function CarryIntoCell(cin: Net, k: nat, w: Wires): nat {
    Bit(w(if k == 0 then cin else Cout(k - 1)))
  }

  /** The low `lo` positions of the two flat words add up to the sums of the first k cells. */
  ghost predicate SummedUpTo(c: Config, cin: Net, k: nat, lo: nat, n: nat, w: Wires)
    requires lo <= n
  {
    SumsTo(Val(Flat(true, c.a, c.offset, n, w)[..lo]), Val(Flat(false, c.b, c.offset, n, w)[..lo]),
           Bit(w(cin)), Val(FlatSum(c.s, k, w)), Pow2(lo), CarryIntoCell(cin, k, w))
  }

  lemma {:induction false} PreviousPos(s: nat, k: nat) returns (lo: nat)
    requires k > 0
    ensures lo == Pos(s, k - 1, 0) <= Pos(s, k, 0)
  {
    lo := Pos(s, k - 1, 0);
    assert Pos(s, k, 0) == lo + s;
  }

  lemma {:induction false} NothingSummed(c: Config, cin: Net, n: nat, w: Wires)
    ensures Pos(c.s, 0, 0) == 0 && SummedUpTo(c, cin, 0, 0, n, w)
  {
  }

  /** Cell k adds its two ports and the carry into it. */
  ghost predicate RowAdds(c: Config, cin: Net, k: nat, row: seq<Net>, w: Wires)
    requires |row| == 2 * c.s + 1
  {
    SumsTo(Number(row[..c.s], w), Number(row[c.s..2 * c.s], w), CarryIntoCell(cin, k, w),
           Number(SumNets(k, c.s), w), Pow2(c.s), CarryIntoCell(cin, k + 1, w))
  }

  /** How the flat words, the sums and the weight grow with cell k. */
  ghost predicate CellGrows(c: Config, k: nat, lo: nat, hi: nat, n: nat, w: Wires, row: seq<Net>)
    requires lo <= hi <= n && |row| == 2 * c.s + 1
  {
    var fa, fb := Flat(true, c.a, c.offset, n, w), Flat(false, c.b, c.offset, n, w);
    && GrownBy(Val(fa[..hi]), Val(fa[..lo]), Pow2(lo), Number(row[..c.s], w))
    && GrownBy(Val(fb[..hi]), Val(fb[..lo]), Pow2(lo), Number(row[c.s..2 * c.s], w))
    && GrownBy(Val(FlatSum(c.s, k + 1, w)), Val(FlatSum(c.s, k, w)), Pow2(lo), Number(SumNets(k, c.s), w))
    && GrownBy(Pow2(hi), 0, Pow2(lo), Pow2(c.s))
  }

  lemma {:induction false} OneCellFurther(c: Config, cin: Net, k: nat, lo: nat, hi: nat, n: nat, w: Wires,
                                          row: seq<Net>)
    requires lo <= hi <= n && |row| == 2 * c.s + 1 && CellGrows(c, k, lo, hi, n, w, row)
      && SummedUpTo(c, cin, k, lo, n, w)
    requires RowAdds(c, cin, k, row, w)
    ensures SummedUpTo(c, cin, k + 1, hi, n, w)
  {
    var fa, fb := Flat(true, c.a, c.offset, n, w), Flat(false, c.b, c.offset, n, w);
    CarryChain(Val(fa[..lo]), Val(fb[..lo]), Val(FlatSum(c.s, k, w)),
               Number(row[..c.s], w), Number(row[c.s..2 * c.s], w), Number(SumNets(k, c.s), w),
               Bit(w(cin)), CarryIntoCell(cin, k, w), CarryIntoCell(cin, k + 1, w), Pow2(lo), Pow2(c.s),
               Val(fa[..hi]), Val(fb[..hi]), Val(FlatSum(c.s, k + 1, w)), Pow2(hi));
  }

  lemma {:induction false} FlatSumGrows(s: nat, k: nat, w: Wires)
    requires s >= 1
    ensures Val(FlatSum(s, k + 1, w)) == Val(FlatSum(s, k, w)) + Pow2(Pos(s, k, 0)) * Number(SumNets(k, s), w)
    ensures Pow2(Pos(s, k + 1, 0)) == Pow2(Pos(s, k, 0)) * Pow2(s)
  {
    PosBounds(s, k, k);
    ValAppend(FlatSum(s, k, w), Bus(SumNets(k, s), w));
    Pow2Add(Pos(s, k, 0), s);
  }

  lemma {:induction false} NoOverflow(x: nat, y: nat, c0: nat, z: nat, p: nat, c: bool)
    requires SumsTo(x, y, c0, z, p, Bit(c)) && x + y + c0 < p
    ensures z == x + y + c0
  {
  }

  /** Above its dummy position a flat word is the operand followed by zeros. */
  lemma {:induction false} FlatIsPadded(isA: bool, width: nat, offset: nat, n: nat, w: Wires)
    requires offset <= 1 && width + offset <= n
    ensures Flat(isA, width, offset, n, w)[offset..] == Bus(OperandNets(isA, width), w) + Zeros(n - width - offset)
  {
    var flat, padded := Flat(isA, width, offset, n, w), Bus(OperandNets(isA, width), w) + Zeros(n - width - offset);
    forall t: nat | t < n - offset
      ensures flat[offset..][t] == padded[t]
    {
      assert flat[offset..][t] == FlatBit(isA, width, offset, t + offset, w);
    }
  }

  lemma {:induction false} FlatValue(isA: bool, width: nat, offset: nat, n: nat, w: Wires)
    requires offset <= 1 && width + offset <= n
    ensures Val(Flat(isA, width, offset, n, w)) ==
      if offset == 0 then Number(OperandNets(isA, width), w) else Bit(isA) + 2 * Number(OperandNets(isA, width), w)
  {
    var flat := Flat(isA, width, offset, n, w);
    FlatIsPadded(isA, width, offset, n, w);
    ValPadded(Bus(OperandNets(isA, width), w), n - width - offset);
    if offset == 0 {
      assert flat[0..] == flat;
    } else {
      assert flat[0] == FlatBit(isA, width, offset, 0, w);
    }
  }

  ghost function LastCarry(cells: seq<seq<Net>>, cin: Net, w: Wires): bool {
    w(if |cells| == 0 then cin else Cout(|cells| - 1))
  }

  lemma {:induction false} TotalFits(x: nat, y: nat, cin: bool, width: nat, n: nat, offset: nat)
    requires x < Pow2(width) && y < Pow2(width) && offset <= 1 && n >= width + 1 + offset
    requires offset == 0 ==> !cin
    ensures (if offset == 0 then x + y else 1 + 2 * x + 2 * y) + Bit(cin) < Pow2(n)
  {
    Pow2Monotone(width + 1 + offset, n);
    assert Pow2(width + 1) == 2 * Pow2(width) && Pow2(width + 2) == 2 * Pow2(width + 1);
  }

  lemma {:induction false} OperandsBounded(a: nat, b: nat, w: Wires)
    ensures Number(OperandNets(true, a), w) < Pow2(Max(a, b)) && Number(OperandNets(false, b), w) < Pow2(Max(a, b))
  {
    ValBound(Bus(OperandNets(true, a), w));
    ValBound(Bus(OperandNets(false, b), w));
    Pow2Monotone(a, Max(a, b));
    Pow2Monotone(b, Max(a, b));
  }

  /** The output pins carry a + b + carry in, cut to their number. */
  ghost predicate Adds(driver: seq<Net>, a: nat, b: nat, cin: Net, w: Wires) {
    Number(driver, w) == (Number(OperandNets(true, a), w) + Number(OperandNets(false, b), w)
                          + Bit(w(cin))) % Pow2(|driver|)
  }

  ghost predicate OutputsAt(driver: seq<Net>, c: Config, count: nat) {
    forall k :: 0 <= k < |driver| ==>
      if k + c.offset < Pos(c.s, count, 0) then IsSumAt(driver[k], c.s, count, k + c.offset) else driver[k] == Null
  }

  lemma {:induction false} OutputBit(net: Net, c: Config, count: nat, k: nat, w: Wires)
    requires ConstantsHold(w)
    requires if k + c.offset < Pos(c.s, count, 0) then IsSumAt(net, c.s, count, k + c.offset) else net == Null
    ensures w(net) == (k + c.offset < Pos(c.s, count, 0) && FlatSum(c.s, count, w)[k + c.offset])
  {
    if k + c.offset < Pos(c.s, count, 0) {
      FlatSumAt(c.s, count, net.cell, net.slot, w);
    }
  }

  lemma {:induction false} OutputBits(driver: seq<Net>, c: Config, count: nat, w: Wires)
    requires ConstantsHold(w) && OutputsAt(driver, c, count) && c.offset <= Pos(c.s, count, 0)
    ensures Number(driver, w) == Val(FlatSum(c.s, count, w)[c.offset..]) % Pow2(|driver|)
  {
    var out, sum := Bus(driver, w), FlatSum(c.s, count, w)[c.offset..];
    forall k | 0 <= k < |driver|
      ensures out[k] == (k < |sum| && sum[k])
    {
      OutputBit(driver[k], c, count, k, w);
    }
    ValFitted(out, sum);
  }

  // ----- behaviours exist -----

  ghost function OperandWires(xs: seq<bool>, ys: seq<bool>, cin: bool, sums: seq<seq<bool>>, couts: seq<bool>): Wires {
    (net: Net) =>
      match net
      case Vcc => true
      case A(k) => k < |xs| && xs[k]
      case B(k) => k < |ys| && ys[k]
      case Cin => cin
      case Cout(i) => i < |couts| && couts[i]
      case Sum(i, j) => i < |sums| && j < |sums[i]| && sums[i][j]
      case _ => false
  }

  lemma {:induction false} SlotIndependent(nets: seq<Net>, isA: bool, c: Config, i: nat, w: Wires, w': Wires)
    requires c.offset <= 1 && PortWired(nets, isA, if isA then c.a else c.b, c.s, c.offset, i)
    requires forall net: Net :: !net.Sum? && !net.Cout? ==> w(net) == w'(net)
    ensures Number(nets, w) == Number(nets, w')
  {
    assert Bus(nets, w) == Bus(nets, w');
  }

  /** One more cell of a behaviour: its sum word and carry out are forced by its inputs. */
  lemma {:induction false} CellBehaves(x: nat, y: nat, c0: bool, s: nat) returns (sum: seq<bool>, cout: bool)
    requires x < Pow2(s) && y < Pow2(s)
    ensures |sum| == s && SumsTo(x, y, Bit(c0), Val(sum), Pow2(s), Bit(cout))
  {
    var total := x + y + Bit(c0);
    cout := total >= Pow2(s);
    sum := Word(if cout then total - Pow2(s) else total, s);
    ValWord(if cout then total - Pow2(s) else total, s);
  }

  ghost predicate CellsHold(cells: seq<seq<Net>>, s: nat, count: nat, w: Wires)
    requires count <= |cells| && forall i :: 0 <= i < |cells| ==> |cells[i]| == 2 * s + 1
  {
    forall i: nat {:trigger CellHolds(cells[i], i, s, w)} :: i < count ==> CellHolds(cells[i], i, s, w)
  }

  lemma {:induction false} CellExtends(cells: seq<seq<Net>>, c: Config, cin: Net, k: nat, lo: nat, hi: nat, n: nat,
                                       w: Wires, row: seq<Net>)
    requires Wired(cells, c, cin) && ChainHolds(cells, c.s, w) && (c.offset == 1 || c.s == 1)
    requires k < |cells| && row == cells[k] && lo == Pos(c.s, k, 0) && hi == Pos(c.s, k + 1, 0) && lo <= hi <= n
    ensures |row| == 2 * c.s + 1 && CellGrows(c, k, lo, hi, n, w, row)
  {
    PortsWired(cells, c, cin, k);
    PortExtends(row[..c.s], true, c.a, c.s, c.offset, k, n, w);
    PortExtends(row[c.s..2 * c.s], false, c.b, c.s, c.offset, k, n, w);
    FlatSumGrows(c.s, k, w);
  }

  lemma {:induction false} CellAdds(cells: seq<seq<Net>>, c: Config, cin: Net, k: nat, w: Wires) returns (row: seq<Net>)
    requires Wired(cells, c, cin) && ChainHolds(cells, c.s, w) && k < |cells|
    ensures row == cells[k] && |row| == 2 * c.s + 1 && RowAdds(c, cin, k, row, w)
  {
    row := cells[k];
    PortsWired(cells, c, cin, k);
    assert CellHolds(row, k, c.s, w);
  }

  lemma {:induction false} CellStep(cells: seq<seq<Net>>, c: Config, cin: Net, k: nat, lo: nat, hi: nat, n: nat,
                                    w: Wires)
    returns (row: seq<Net>)
    requires Wired(cells, c, cin) && ChainHolds(cells, c.s, w) && (c.offset == 1 || c.s == 1)
    requires k < |cells| && lo == Pos(c.s, k, 0) && hi == Pos(c.s, k + 1, 0) && lo <= hi <= n
    ensures |row| == 2 * c.s + 1 && CellGrows(c, k, lo, hi, n, w, row) && RowAdds(c, cin, k, row, w)
  {
    row := CellAdds(cells, c, cin, k, w);
    CellExtends(cells, c, cin, k, lo, hi, n, w, row);
  }

  /** The first k cells together add the low k*s positions of the two flat words. */
  lemma {:induction false} ChainSums(cells: seq<seq<Net>>, c: Config, cin: Net, k: nat, lo: nat, n: nat, w: Wires)
    requires Wired(cells, c, cin) && ChainHolds(cells, c.s, w) && (c.offset == 1 || c.s == 1)
    requires k <= |cells| && lo == Pos(c.s, k, 0) <= n
    ensures SummedUpTo(c, cin, k, lo, n, w)
  {
    if k > 0 {
      var before := PreviousPos(c.s, k);
      ChainSums(cells, c, cin, k - 1, before, n, w);
      var row := CellStep(cells, c, cin, k - 1, before, lo, n, w);
      OneCellFurther(c, cin, k - 1, before, lo, n, w, row);
    } else {
      NothingSummed(c, cin, n, w);
    }
  }

  lemma {:induction false} WholeChainSums(cells: seq<seq<Net>>, c: Config, cin: Net, w: Wires)
    requires Wired(cells, c, cin) && ChainHolds(cells, c.s, w) && (c.offset == 1 || c.s == 1)
    ensures var n := Pos(c.s, |cells|, 0);
      SumsTo(Val(Flat(true, c.a, c.offset, n, w)), Val(Flat(false, c.b, c.offset, n, w)),
             Bit(w(cin)), Val(FlatSum(c.s, |cells|, w)), Pow2(n), Bit(LastCarry(cells, cin, w)))
  {
    var n := Pos(c.s, |cells|, 0);
    ChainSums(cells, c, cin, |cells|, n, n, w);
    assert Flat(true, c.a, c.offset, n, w)[..n] == Flat(true, c.a, c.offset, n, w);
    assert Flat(false, c.b, c.offset, n, w)[..n] == Flat(false, c.b, c.offset, n, w);
  }

  /** What the sum positions of the whole chain add up to. */
  lemma {:induction false} ChainTotal(cells: seq<seq<Net>>, c: Config, cin: Net, w: Wires)
    requires Wired(cells, c, cin) && ChainHolds(cells, c.s, w)
    requires c.a >= 1 && c.b >= 1 && (c.offset == 1 || (c.s == 1 && !w(cin)))
    requires Pos(c.s, |cells|, 0) >= Max(c.a, c.b) + 1 + c.offset
    ensures var total := Number(OperandNets(true, c.a), w) + Number(OperandNets(false, c.b), w);
      Val(FlatSum(c.s, |cells|, w)) == if c.offset == 0 then total else 1 + Bit(w(cin)) + 2 * total
  {
    var n := Pos(c.s, |cells|, 0);
    WholeChainSums(cells, c, cin, w);
    FlatValue(true, c.a, c.offset, n, w);
    FlatValue(false, c.b, c.offset, n, w);
    OperandsBounded(c.a, c.b, w);
    TotalFits(Number(OperandNets(true, c.a), w), Number(OperandNets(false, c.b), w), w(cin), Max(c.a, c.b), n,
              c.offset);
    NoOverflow(Val(Flat(true, c.a, c.offset, n, w)), Val(Flat(false, c.b, c.offset, n, w)), Bit(w(cin)),
               Val(FlatSum(c.s, |cells|, w)), Pow2(n), LastCarry(cells, cin, w));
  }

  /** A correctly wired chain adds, for all operand widths, block sizes and operand values. */
  lemma {:induction false} ChainAdds(cells: seq<seq<Net>>, driver: seq<Net>, c: Config, cin: Net, w: Wires)
    requires Wired(cells, c, cin) && ChainHolds(cells, c.s, w) && OutputsAt(driver, c, |cells|)
    requires c.a >= 1 && c.b >= 1 && (c.offset == 1 || (c.s == 1 && !w(cin)))
    requires Pos(c.s, |cells|, 0) >= Max(c.a, c.b) + 1 + c.offset
    ensures Adds(driver, c.a, c.b, cin, w)
  {
    var sum := FlatSum(c.s, |cells|, w);
    ChainTotal(cells, c, cin, w);
    OutputBits(driver, c, |cells|, w);
    if c.offset == 0 {
      assert sum[0..] == sum;
    }
  }

  lemma {:induction false} CellStays(cells: seq<seq<Net>>, c: Config, cin: Net, i: nat, w: Wires, w': Wires)
    requires Wired(cells, c, cin) && i < |cells| && !cin.Sum? && !cin.Cout?
    requires forall net: Net :: !net.Sum? && !net.Cout? ==> w(net) == w'(net)
    requires forall net: Net :: (net.Sum? || net.Cout?) && net.cell <= i ==> w(net) == w'(net)
    requires CellHolds(cells[i], i, c.s, w)
    ensures CellHolds(cells[i], i, c.s, w')
  {
    PortsWired(cells, c, cin, i);
    SlotIndependent(cells[i][..c.s], true, c, i, w, w');
    SlotIndependent(cells[i][c.s..2 * c.s], false, c, i, w, w');
    assert Bus(SumNets(i, c.s), w') == Bus(SumNets(i, c.s), w);
  }

  lemma {:induction false} NextCell(cells: seq<seq<Net>>, c: Config, cin: Net, xs: seq<bool>, ys: seq<bool>,
                                    cinBit: bool, sums: seq<seq<bool>>, couts: seq<bool>)
    returns (sum: seq<bool>, cout: bool)
    requires Wired(cells, c, cin) && !cin.Sum? && !cin.Cout?
    requires |sums| == |couts| < |cells|
    ensures CellHolds(cells[|couts|], |couts|, c.s, OperandWires(xs, ys, cinBit, sums + [sum], couts + [cout]))
  {
    var i, row := |couts|, cells[|couts|];
    var w := OperandWires(xs, ys, cinBit, sums, couts);
    PortsWired(cells, c, cin, i);
    ValBound(Bus(row[..c.s], w));
    ValBound(Bus(row[c.s..2 * c.s], w));
    sum, cout := CellBehaves(Number(row[..c.s], w), Number(row[c.s..2 * c.s], w), w(row[2 * c.s]), c.s);
    var w' := OperandWires(xs, ys, cinBit, sums + [sum], couts + [cout]);
    SlotIndependent(row[..c.s], true, c, i, w, w');
    SlotIndependent(row[c.s..2 * c.s], false, c, i, w, w');
    assert Bus(SumNets(i, c.s), w') == sum;
  }

  lemma {:induction false} OneMoreCell(cells: seq<seq<Net>>, c: Config, cin: Net, xs: seq<bool>, ys: seq<bool>,
                                       cinBit: bool, sums: seq<seq<bool>>, couts: seq<bool>, sum: seq<bool>, cout: bool)
    requires Wired(cells, c, cin) && !cin.Sum? && !cin.Cout? && |sums| == |couts| < |cells|
    requires CellsHold(cells, c.s, |couts|, OperandWires(xs, ys, cinBit, sums, couts))
    requires CellHolds(cells[|couts|], |couts|, c.s, OperandWires(xs, ys, cinBit, sums + [sum], couts + [cout]))
    ensures CellsHold(cells, c.s, |couts| + 1, OperandWires(xs, ys, cinBit, sums + [sum], couts + [cout]))
  {
    var w, w' := OperandWires(xs, ys, cinBit, sums, couts), OperandWires(xs, ys, cinBit, sums + [sum], couts + [cout]);
    forall k: nat | k < |couts|
      ensures CellHolds(cells[k], k, c.s, w')
    {
      CellStays(cells, c, cin, k, w, w');
    }
  }

  /** For all operand values the chain has a behaviour with those values on the operand pins. */
  lemma {:induction false} ChainBehaves(cells: seq<seq<Net>>, c: Config, cin: Net, xs: seq<bool>, ys: seq<bool>,
                                        cinBit: bool)
    returns (w: Wires)
    requires Wired(cells, c, cin) && |xs| == c.a && |ys| == c.b && !cin.Sum? && !cin.Cout?
    ensures ChainHolds(cells, c.s, w)
    ensures Bus(OperandNets(true, c.a), w) == xs && Bus(OperandNets(false, c.b), w) == ys && w(Cin) == cinBit
  {
    var sums: seq<seq<bool>>, couts: seq<bool> := [], [];
    while |couts| < |cells|
      invariant |sums| == |couts| <= |cells|
      invariant CellsHold(cells, c.s, |couts|, OperandWires(xs, ys, cinBit, sums, couts))
    {
      var sum, cout := NextCell(cells, c, cin, xs, ys, cinBit, sums, couts);
      OneMoreCell(cells, c, cin, xs, ys, cinBit, sums, couts, sum, cout);
      sums, couts := sums + [sum], couts + [cout];
    }
    w := OperandWires(xs, ys, cinBit, sums, couts);
    assert Bus(OperandNets(true, c.a), w) == xs && Bus(OperandNets(false, c.b), w) == ys;
  }

  // ----- the splitter -----

  ghost function CellsOf(chain: AdderChain): (cells: seq<seq<Net>>)
    requires chain.Shape()
    reads chain, chain.pins
    ensures |cells| == chain.count
  {
    seq(chain.count, (i: nat) requires chain.Shape() && i < chain.count reads chain, chain.pins =>
      seq(2 * chain.s + 1,
          (j: nat) requires chain.Shape() && i < chain.count && j < 2 * chain.s + 1 reads chain, chain.pins =>
            chain.pins[i, j]))
  }

  lemma {:induction false} WiredCells(chain: AdderChain, cin: Net)
    requires chain.Shape() && chain.OperandsWired() && chain.CarriesWired(cin)
    ensures Wired(CellsOf(chain), Config(chain.a, chain.b, chain.s, chain.offset), cin)
  {
  }

  lemma {:induction false} ConnectedOutputs(chain: AdderChain)
    requires chain.Shape() && chain.OutputsWiredUpTo(Pos(chain.s, chain.count, 0))
    ensures OutputsAt(chain.driver[..], Config(chain.a, chain.b, chain.s, chain.offset), |CellsOf(chain)|)
  {
  }

  /** Whatever the operand values, every behaviour of the chain adds. */
  ghost predicate AlwaysAdds(cells: seq<seq<Net>>, driver: seq<Net>, a: nat, b: nat, s: nat, cin: Net)
    requires forall i :: 0 <= i < |cells| ==> |cells[i]| == 2 * s + 1
  {
    forall w: Wires {:trigger ChainHolds(cells, s, w)} :: ChainHolds(cells, s, w) ==> Adds(driver, a, b, cin, w)
  }

  /** The carry in the node asks to have added: its own if it has a third port. */
  function OwnCarry(hasCin: bool): Net {
    if hasCin then Cin else Pad
  }

  /** The net the splitter connects to the first carry pin; the global option grounds it last. */
  function WiredCarry(hasCin: bool, cinGlobal: bool): Net {
    if cinGlobal then Gnd else OwnCarry(hasCin)
  }

  lemma {:induction false} ExactMultiple(x: nat, s: nat)
    requires s >= 1 && x >= 1 && x % s == 0
    ensures Pos(s, x / s, 0) == x && x / s >= 1
  {
    assert x == s * (x / s) + x % s;
    MulCommutes(s, x / s);
  }

  /** The slots that get grounded in the last cell are never operand slots, unless the splitter fails later on. */
  lemma {:induction false} GroundedSlotsEmpty(a: nat, b: nat, s: nat, offset: nat)
    requires a >= 1 && b >= 1 && s >= 1 && offset <= 1 && CellCount(a, b, s, offset) >= 1
    requires offset == 1 || s == 1 || CellCount(a, b, s, offset) == 1
    requires (a + 1) % s == 0 && (b + 1) % s == 0
    ensures GroundedSlotsFree(a, b, s, offset, CellCount(a, b, s, offset))
  {
    var count, w := CellCount(a, b, s, offset), Max(a, b);
    CountBounds(a, b, s, offset);
    ExactMultiple(w + 1, s);
    if offset == 1 || s == 1 {
      SlotMeans(a, s, offset, count - 1, 0);
      SlotMeans(b, s, offset, count - 1, 0);
      PosBounds(s, count - 1, count);
    } else {
      ExactMultiple(a + 1, s);
      ExactMultiple(b + 1, s);
    }
  }

  /** One operand has all bits set and the other is 1: the sum needs the bit above both. */
  lemma {:induction false} TopBitNeeded(a: nat, b: nat) returns (xs: seq<bool>, ys: seq<bool>)
    requires a >= 1 && b >= 1
    ensures |xs| == a && |ys| == b && Val(xs) + Val(ys) == Pow2(Max(a, b))
  {
    assert Pow2(1) == 2;
    Pow2Monotone(1, a);
    Pow2Monotone(1, b);
    if a >= b {
      xs, ys := Word(Pow2(a) - 1, a), Word(1, b);
      ValWord(Pow2(a) - 1, a);
      ValWord(1, b);
    } else {
      xs, ys := Word(1, a), Word(Pow2(b) - 1, b);
      ValWord(1, a);
      ValWord(Pow2(b) - 1, b);
    }
  }

  /** A chain whose top output pin was never connected gets some sum wrong. */
  lemma {:induction false} TopOutputMissing(cells: seq<seq<Net>>, driver: seq<Net>, c: Config, own: Net)
    requires Wired(cells, c, Gnd) && c.a >= 1 && c.b >= 1 && (own == Cin || own == Pad)
    requires |driver| == Max(c.a, c.b) + 1 && driver[|driver| - 1] == Null
    ensures !AlwaysAdds(cells, driver, c.a, c.b, c.s, own)
  {
    var width := Max(c.a, c.b);
    var xs, ys := TopBitNeeded(c.a, c.b);
    var w := ChainBehaves(cells, c, Gnd, xs, ys, false);
    var out := Bus(driver, w);
    ValTakeStep(out, width);
    assert out[..width + 1] == out;
    ValBound(out[..width]);
    ModUnique(Pow2(width), Pow2(width + 1), 0, Pow2(width));
    assert !Adds(driver, c.a, c.b, own, w);
  }

  lemma {:induction false} ZerosAddUp(driver: seq<Net>, a: nat, b: nat, w: Wires)
    requires Adds(driver, a, b, Gnd, w) && !w(Gnd) && w(Cin) && |driver| >= 1
    requires Number(OperandNets(true, a), w) == 0 && Number(OperandNets(false, b), w) == 0
    ensures !Adds(driver, a, b, Cin, w)
  {
    Pow2Monotone(1, |driver|);
    assert Pow2(1) == 2;
    ModUnique(0, Pow2(|driver|), 0, 0);
    ModUnique(1, Pow2(|driver|), 0, 1);
  }

  /**
   * A node with a carry in of its own loses it when the chain's first carry pin is grounded: 0 + 0 + 1
   * comes out as 0.
   */
  lemma {:induction false} OwnCarryLost(cells: seq<seq<Net>>, driver: seq<Net>, c: Config)
    requires Wired(cells, c, Gnd) && OutputsAt(driver, c, |cells|)
    requires c.a >= 1 && c.b >= 1 && c.offset == 0 && c.s == 1
    requires Pos(c.s, |cells|, 0) >= Max(c.a, c.b) + 1 && |driver| >= 1
    ensures !AlwaysAdds(cells, driver, c.a, c.b, c.s, Cin)
  {
    var xs, ys := Zeros(c.a), Zeros(c.b);
    var w := ChainBehaves(cells, c, Gnd, xs, ys, true);
    ChainAdds(cells, driver, c, Gnd, w);
    ValZeros(xs);
    ValZeros(ys);
    ZerosAddUp(driver, c.a, c.b, w);
  }

  /** Reading the pad instead of ground for a carry in makes no difference. */
  lemma {:induction false} PadIsGnd(cells: seq<seq<Net>>, driver: seq<Net>, a: nat, b: nat, s: nat)
    requires forall i :: 0 <= i < |cells| ==> |cells[i]| == 2 * s + 1
    requires AlwaysAdds(cells, driver, a, b, s, Gnd)
    ensures AlwaysAdds(cells, driver, a, b, s, Pad)
  {
    forall w: Wires | ChainHolds(cells, s, w)
      ensures Adds(driver, a, b, Pad, w)
    {
      assert Adds(driver, a, b, Gnd, w);
    }
  }

  lemma {:induction false} ChainAlwaysAdds(cells: seq<seq<Net>>, driver: seq<Net>, c: Config, cin: Net)
    requires Wired(cells, c, cin) && OutputsAt(driver, c, |cells|)
    requires c.a >= 1 && c.b >= 1 && (c.offset == 1 || (c.s == 1 && cin == Gnd))
    requires Pos(c.s, |cells|, 0) >= Max(c.a, c.b) + 1 + c.offset
    ensures AlwaysAdds(cells, driver, c.a, c.b, c.s, cin)
  {
    forall w: Wires | ChainHolds(cells, c.s, w)
      ensures Adds(driver, c.a, c.b, cin, w)
    {
      ChainAdds(cells, driver, c, cin, w);
    }
  }

  /**
   * As many cells as the longer operand and one carry bit fill completely, and one more for the dummy;
   * a cell that would be filled in part is not counted.
   */
  method CountCells(a: nat, b: nat, s: nat, offset: nat) returns (count: nat)
    requires s >= 1 && offset <= 1
    ensures offset <= count && Pos(s, count - offset, 0) <= Max(a, b) + 1 < Pos(s, count - offset, s)
  {
    var counta, countb := (a + 1) / s + offset, (b + 1) / s + offset;
    count := if counta >= countb then counta else countb;
    CountBounds(a, b, s, offset);
  }

  /** Those bounds leave one number only. */
  lemma {:induction false} CountUnique(a: nat, b: nat, s: nat, offset: nat, count: nat)
    requires s >= 1 && offset <= count && offset <= 1
    requires Pos(s, count - offset, 0) <= Max(a, b) + 1 < Pos(s, count - offset, s)
    ensures count == CellCount(a, b, s, offset)
  {
    CountBounds(a, b, s, offset);
    var q := (Max(a, b) + 1) / s;
    PosBounds(s, q, count - offset);
    PosBounds(s, count - offset, q);
  }

  /** A chain with its outputs connected adds the node's own carry in, unless the option has grounded it. */
  lemma {:induction false} ConnectedAdds(cells: seq<seq<Net>>, driver: seq<Net>, c: Config, hasCin: bool)
    requires var cinGlobal := c.offset == 0;
      Wired(cells, c, WiredCarry(hasCin, cinGlobal)) && OutputsAt(driver, c, |cells|)
    requires c.a >= 1 && c.b >= 1 && (c.offset == 1 || c.s == 1) && |driver| >= 1
    requires Pos(c.s, |cells|, 0) >= Max(c.a, c.b) + 1 + c.offset
    ensures AlwaysAdds(cells, driver, c.a, c.b, c.s, WiredCarry(hasCin, c.offset == 0))
    ensures AlwaysAdds(cells, driver, c.a, c.b, c.s, OwnCarry(hasCin)) <==> c.offset == 1 || !hasCin
  {
    ChainAlwaysAdds(cells, driver, c, WiredCarry(hasCin, c.offset == 0));
    if c.offset == 0 {
      if hasCin {
        OwnCarryLost(cells, driver, c);
      } else {
        PadIsGnd(cells, driver, c.a, c.b, c.s);
      }
    }
  }

  /** What a chain does once its inputs and its outputs have been connected. */
  lemma {:induction false} SplitOutcome(chain: AdderChain, hasCin: bool)
    requires chain.Shape() && chain.count == CellCount(chain.a, chain.b, chain.s, chain.offset)
    requires chain.driver.Length >= Max(chain.a, chain.b)
    requires chain.GroundingSafe() ==> chain.OperandsWired()
    requires chain.CarriesWired(WiredCarry(hasCin, chain.offset == 0))
    requires chain.offset == 1 || chain.s == 1 ==> chain.OutputsWiredUpTo(Pos(chain.s, chain.count, 0))
    requires chain.offset == 0 && chain.s >= 2 ==>
      && chain.count == 1 && chain.s <= Max(chain.a, chain.b) + 1
      && forall k :: chain.s - 1 <= k < chain.driver.Length ==> chain.driver[k] == Null
    ensures var cells, c, cin := CellsOf(chain), Config(chain.a, chain.b, chain.s, chain.offset),
      WiredCarry(hasCin, chain.offset == 0);
      && Wired(cells, c, cin)
      && (c.offset == 1 || c.s == 1 ==> AlwaysAdds(cells, chain.driver[..], c.a, c.b, c.s, cin))
      && (chain.driver.Length == Max(c.a, c.b) + 1 ==>
          (AlwaysAdds(cells, chain.driver[..], c.a, c.b, c.s, OwnCarry(hasCin))
           <==> c.offset == 1 || (c.s == 1 && !hasCin)))
  {
    var cells, driver := CellsOf(chain), chain.driver[..];
    var c := Config(chain.a, chain.b, chain.s, chain.offset);
    if (c.a + 1) % c.s == 0 && (c.b + 1) % c.s == 0 {
      GroundedSlotsEmpty(c.a, c.b, c.s, c.offset);
    }
    WiredCells(chain, WiredCarry(hasCin, c.offset == 0));
    ChainReach(c.a, c.b, c.s, c.offset);
    if c.offset == 1 || c.s == 1 {
      ConnectedOutputs(chain);
      ConnectedAdds(cells, driver, c, hasCin);
    } else if chain.driver.Length == Max(c.a, c.b) + 1 {
      TopOutputMissing(cells, driver, c, OwnCarry(hasCin));
    }
  }

  /**
   * Splits one adder into hard cells of s bits and connects the result. With the global carry option
   * and cells of two or more bits the code either runs into a missing pin or mis-wires the chain, and
   * with one-bit cells it drops the carry in of a node that has one; so the exact condition for a
   * working adder is stated last.
   */
  method SplitAdder(a: nat, b: nat, s: nat, outs: nat, hasCin: bool, cinGlobal: bool) returns (chain: AdderChain?)
    requires a >= 1 && b >= 1 && s >= 1 && outs >= Max(a, b)
    ensures chain != null ==> chain.Shape() && fresh(chain) && chain.a == a && chain.b == b && chain.s == s
    ensures !cinGlobal || s == 1 ==>
      && chain != null
      && AlwaysAdds(CellsOf(chain), chain.driver[..], a, b, s, WiredCarry(hasCin, cinGlobal))
      && Wired(CellsOf(chain), Config(a, b, s, if cinGlobal then 0 else 1), WiredCarry(hasCin, cinGlobal))
      && Pos(s, chain.count, 0) >= Max(a, b) + if cinGlobal then 1 else 2
    ensures outs == Max(a, b) + 1 ==>
      ((chain != null && AlwaysAdds(CellsOf(chain), chain.driver[..], a, b, s, OwnCarry(hasCin)))
       <==> (!cinGlobal || (s == 1 && !hasCin)))
  {
    var offset := if cinGlobal then 0 else 1;
    var count := CountCells(a, b, s, offset);
    CountUnique(a, b, s, offset, count);
    ChainReach(a, b, s, offset);
    if count == 0 {
      return null;
    }
    chain := new AdderChain(a, b, s, offset, count, outs);
    chain.WireInputs(hasCin);
    var ok := chain.ConnectOutputs();
    if !ok {
      return null;
    }
    SplitOutcome(chain, hasCin);
  }

  function OperandSlot(isA: bool, s: nat, cells: seq<seq<Net>>, i: nat, j: nat): Net
    requires i < |cells| && |cells[i]| == 2 * s + 1 && j < s
  {
    cells[i][if isA then j else s + j]
  }

  lemma {:induction false} SlotsWired(cells: seq<seq<Net>>, c: Config, cin: Net, i: nat, j: nat)
    requires Wired(cells, c, cin) && i < |cells| && j < c.s
    ensures |cells[i]| == 2 * c.s + 1
    ensures SlotWired(OperandSlot(true, c.s, cells, i, j), true, c.a, c.s, c.offset, i, j)
    ensures SlotWired(OperandSlot(false, c.s, cells, i, j), false, c.b, c.s, c.offset, i, j)
  {
    var row := cells[i];
    assert |row| == 2 * c.s + 1;
  }

  /** Every operand pin is used in exactly one slot of the chain. */
  lemma {:induction false} OperandUsedOnce(cells: seq<seq<Net>>, c: Config, cin: Net, isA: bool, k: nat, i: nat, j: nat)
    requires Wired(cells, c, cin) && (c.offset == 1 || c.s == 1)
    requires k < if isA then c.a else c.b
    requires Pos(c.s, |cells|, 0) >= Max(c.a, c.b) + c.offset
    requires i < |cells| && j < c.s
    ensures (k + c.offset) / c.s < |cells|
    ensures OperandSlot(isA, c.s, cells, i, j) == PortNet(isA, k) <==>
      i == (k + c.offset) / c.s && j == (k + c.offset) % c.s
  {
    var t := k + c.offset;
    assert t == c.s * (t / c.s) + t % c.s;
    MulCommutes(c.s, t / c.s);
    if t / c.s >= |cells| {
      PosBounds(c.s, |cells|, t / c.s);
    }
    SlotMeans(if isA then c.a else c.b, c.s, c.offset, i, j);
    if Pos(c.s, i, j) == t {
      ModUnique(t, c.s, i, j);
    }
    SlotsWired(cells, c, cin, i, j);
  }
}
