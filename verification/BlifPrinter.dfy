/** Printing gates as covers, and reading them back. */
module BlifPrinter {
  import opened Bits
  import opened BlifCovers

  // ----- the printed patterns -----

  function Repeat(c: char, n: nat): (s: string)
    ensures |s| == n && forall i :: 0 <= i < n ==> s[i] == c
  {
    seq(n, _ => c)
  }

  function DiagonalRowOf(i: nat, c: char, n: nat): (s: string)
    ensures |s| == n
  {
    seq(n, (j: nat) => if j == i then c else '-')
  }

  function DiagonalRows(c: char, n: nat): (rows: seq<string>)
    ensures |rows| == n
  {
    seq(n, (i: nat) => DiagonalRowOf(i, c, n))
  }

  /** The binary digits of i, most significant first. */
  function BitString(i: nat, n: nat): (s: string)
    ensures |s| == n
  {
    if n == 0 then "" else BitString(i / 2, n - 1) + [if i % 2 == 1 then '1' else '0']
  }

  /** The rows among the first k numbers that the exclusive-or printer selects. */
  function ParityRows(n: nat, odd: bool, k: nat): (rows: seq<string>)
    ensures k >= 2 ==> rows != []
  {
    if k == 0 then [] else
      var m := (k - 1) % 8;
      ParityRows(n, odd, k - 1)
      + (if (m == 1 || m == 2 || m == 4 || m == 7) == odd then [BitString(k - 1, n)] else [])
  }

  /** The comparisons of two bits, printed the wrong way round. */
  predicate Comparison(g: Gate) {
    g == Equal || g == NotEqual
  }

  /** The gates printed by parity. */
  predicate IsParity(g: Gate) {
    g == Xor || g == Xnor || Comparison(g)
  }

  predicate PrintedOdd(g: Gate) {
    g == Xor || g == Equal
  }

  predicate Printable(g: Gate, n: nat) {
    n >= 1 && Fits(g, n) && g != Generic && g != Mux2 && (IsParity(g) ==> n <= 3)
  }

  function PrintedRows(g: Gate, n: nat): (rows: seq<string>)
    requires Printable(g, n)
    ensures rows != []
  {
    match g
    case Gt => ["100"]
    case Lt => ["010"]
    case AdderFunc => ["001", "010", "100", "111"]
    case CarryFunc => ["011", "101", "110", "111"]
    case Smux2 => ["01-", "1-1"]
    case BitwiseNot => ["0"]
    case Buf => ["1"]
    case And => [Repeat('1', n)]
    case Nor | LogicalNot => [Repeat('0', n)]
    case Or => DiagonalRows('1', n)
    case Nand => DiagonalRows('0', n)
    case Xor | Equal => ParityRows(n, true, Pow2(n))
    case Xnor | NotEqual => ParityRows(n, false, Pow2(n))
  }

  // ----- the printing loops -----

  method PrintRepeated(c: char, n: nat) returns (s: string)
    ensures s == Repeat(c, n)
  {
    s := "";
    for i := 0 to n
      invariant s == Repeat(c, i)
    {
      s := s + [c];
    }
  }

  method PrintDiagonal(c: char, n: nat) returns (rows: seq<string>)
    ensures rows == DiagonalRows(c, n)
  {
    rows := [];
    for i := 0 to n
      invariant rows == DiagonalRows(c, n)[..i]
    {
      var s := "";
      for j := 0 to n
        invariant s == DiagonalRowOf(i, c, n)[..j]
      {
        if i == j {
          s := s + [c];
        } else {
          s := s + "-";
        }
      }
      assert s == DiagonalRows(c, n)[i];
      rows := rows + [s];
    }
  }

  method MyPower(x: int, y: nat) returns (value: int)
    ensures x == 2 ==> value == Pow2(y)
  {
    if y == 0 {
      return 1;
    }
    value := x;
    for i := 1 to y
      invariant x == 2 ==> value == Pow2(i)
    {
      value := value * x;
    }
  }

  lemma {:induction false} HalveFirst(x: nat, m: nat)
    requires m > 0
    ensures x / (2 * m) == (x / 2) / m
  {
    var q, r := (x / 2) / m, (x / 2) % m;
    assert x / 2 == q * m + r;
    assert x == q * (2 * m) + (2 * r + x % 2);
    ModUnique(x, 2 * m, q, 2 * r + x % 2);
  }

  lemma {:induction false} BitStringDigits(number: nat, n: nat)
    ensures forall k :: 0 <= k < n ==>
      BitString(number, n)[k] == if (number / Pow2(n - 1 - k)) % 2 == 1 then '1' else '0'
  {
    if n > 0 {
      BitStringDigits(number / 2, n - 1);
      forall k | 0 <= k < n
        ensures BitString(number, n)[k] == if (number / Pow2(n - 1 - k)) % 2 == 1 then '1' else '0'
      {
        if k < n - 1 {
          HalveFirst(number, Pow2(n - 2 - k));
        }
      }
    }
  }

  /** Fills a buffer of bits from the right, testing them with a mask that doubles. */
  method ConvertLongToBitString(number: nat, numBits: nat) returns (s: string)
    ensures s == BitString(number, numBits)
  {
    var buffer := new char[numBits];
    var mask, i := 1, numBits - 1;
    BitStringDigits(number, numBits);
    while i >= 0
      invariant -1 <= i < numBits
      invariant mask == Pow2(numBits - 1 - i)
      invariant forall k :: i < k < numBits ==> buffer[k] == BitString(number, numBits)[k]
    {
      if (number / mask) % 2 == 1 {
        buffer[i] := '1';
      } else {
        buffer[i] := '0';
      }
      mask := mask * 2;
      i := i - 1;
    }
    s := buffer[..];
  }

  method PrintParity(n: nat, odd: bool) returns (rows: seq<string>)
    requires n <= 3
    ensures rows == ParityRows(n, odd, Pow2(n))
  {
    rows := [];
    var limit := MyPower(2, n);
    var i := 0;
    while i < limit
      invariant 0 <= i <= limit && rows == ParityRows(n, odd, i)
    {
      if odd {
        if i % 8 == 1 || i % 8 == 2 || i % 8 == 4 || i % 8 == 7 {
          var s := ConvertLongToBitString(i, n);
          rows := rows + [s];
        }
      } else {
        if i % 8 == 0 || i % 8 == 3 || i % 8 == 5 || i % 8 == 6 {
          var s := ConvertLongToBitString(i, n);
          rows := rows + [s];
        }
      }
      i := i + 1;
    }
  }

  // ----- the printed cover is the gate -----

  lemma {:induction false} BitStringsShort()
    ensures BitString(0, 1) == "0" && BitString(1, 1) == "1"
    ensures BitString(0, 2) == "00" && BitString(1, 2) == "01" && BitString(2, 2) == "10" && BitString(3, 2) == "11"
  {
  }

  lemma {:induction false} BitStrings3()
    ensures BitString(0, 3) == "000" && BitString(1, 3) == "001" && BitString(2, 3) == "010" && BitString(3, 3) == "011"
    ensures BitString(4, 3) == "100" && BitString(5, 3) == "101" && BitString(6, 3) == "110" && BitString(7, 3) == "111"
  {
    BitStringsShort();
  }

  predicate OddNumber(k: nat) {
    k == 1 || k == 2 || k == 4 || k == 7
  }

  /** One number more: it is selected if its parity is the one asked for. */
  lemma {:induction false} ParityOne(n: nat, odd: bool, k: nat)
    requires k < 8
    ensures ParityRows(n, odd, k + 1) == ParityRows(n, odd, k) + if OddNumber(k) == odd then [BitString(k, n)] else []
  {
    assert k % 8 == k;
  }

  lemma {:induction false} ParityLow(n: nat, odd: bool)
    ensures ParityRows(n, odd, 2) == [BitString(if odd then 1 else 0, n)]
    ensures ParityRows(n, odd, 4) == [BitString(if odd then 1 else 0, n), BitString(if odd then 2 else 3, n)]
  {
    ParityOne(n, odd, 0);
    ParityOne(n, odd, 1);
    ParityOne(n, odd, 2);
    ParityOne(n, odd, 3);
  }

  lemma {:induction false} ParityHigh(n: nat, odd: bool)
    ensures ParityRows(n, odd, 8) ==
      ParityRows(n, odd, 4) + [BitString(if odd then 4 else 5, n), BitString(if odd then 7 else 6, n)]
  {
    ParityOne(n, odd, 4);
    ParityOne(n, odd, 5);
    ParityOne(n, odd, 6);
    ParityOne(n, odd, 7);
  }

  lemma {:induction false} ParityStep(n: nat, odd: bool)
    requires 1 <= n <= 3
    ensures ParityRows(n, odd, 2) == [BitString(if odd then 1 else 0, n)]
    ensures ParityRows(n, odd, 4) ==
      if odd then [BitString(1, n), BitString(2, n)] else [BitString(0, n), BitString(3, n)]
    ensures ParityRows(n, odd, 8) ==
      if odd then [BitString(1, n), BitString(2, n), BitString(4, n), BitString(7, n)]
      else [BitString(0, n), BitString(3, n), BitString(5, n), BitString(6, n)]
  {
    ParityLow(n, odd);
    ParityHigh(n, odd);
  }

  function ParityTable(n: nat, odd: bool): seq<string>
    requires 1 <= n <= 3
  {
    if n == 1 then (if odd then ["1"] else ["0"])
    else if n == 2 then (if odd then ["01", "10"] else ["00", "11"])
    else if odd then ["001", "010", "100", "111"] else ["000", "011", "101", "110"]
  }

  lemma {:induction false} ParityRowsList(n: nat, odd: bool)
    requires 1 <= n <= 3
    ensures ParityRows(n, odd, Pow2(n)) == ParityTable(n, odd)
  {
    assert Pow2(n) == if n == 1 then 2 else if n == 2 then 4 else 8;
    ParityStep(n, odd);
    if n == 3 {
      BitStrings3();
    } else {
      BitStringsShort();
    }
  }

  lemma {:induction false} ParityRectangular(n: nat, odd: bool)
    requires 1 <= n <= 3
    ensures Rectangular(ParityTable(n, odd), n)
  {
  }

  lemma {:induction false} PrintedRectangular(g: Gate, n: nat)
    requires Printable(g, n)
    ensures Rectangular(PrintedRows(g, n), n)
  {
    if IsParity(g) {
      ParityRowsList(n, PrintedOdd(g));
      ParityRectangular(n, PrintedOdd(g));
    }
  }

  /** The type a printed gate is read back as; some come back under another name. */
  function ReadsBack(g: Gate, n: nat): Gate
    requires Printable(g, n)
  {
    match g
    case Buf => And
    case Nor | LogicalNot => if n == 1 then BitwiseNot else Nor
    case Or => if n == 1 then And else Or
    case Nand => if n == 1 then BitwiseNot else Nand
    case Xor | Equal => if n == 1 then And else if n == 2 then Xor else AdderFunc
    case Xnor | NotEqual => if n == 1 then BitwiseNot else Xnor
    case _ => g
  }

  lemma {:induction false} DiagonalRowsAreDiagonal(c: char, n: nat)
    requires n >= 1
    ensures Diagonal(DiagonalRows(c, n), c)
    ensures forall d :: d != c ==> !Diagonal(DiagonalRows(c, n), d)
  {
    forall i | 0 <= i < n
      ensures DiagonalRow(DiagonalRows(c, n)[i], i, c)
    {
    }
    assert DiagonalRows(c, n)[0][0] == c;
  }

  lemma {:induction false} DiagonalNotFew(c: char, n: nat)
    requires n >= 2 && c in "01"
    ensures RecognisedFew(DiagonalRows(c, n)) == Generic
  {
    var rows := DiagonalRows(c, n);
    assert rows[0][1] == '-' && rows[1][0] == '-';
  }

  lemma {:induction false} SingleReadsBack(g: Gate, n: nat)
    requires Printable(g, n) && (g == And || g == Nor || g == LogicalNot)
    ensures RecognisedFew(PrintedRows(g, n)) == ReadsBack(g, n)
  {
    var row := PrintedRows(g, n)[0];
    assert row[0] == if g == And then '1' else '0';
    if n == 3 {
      assert row[1] == row[0];
    }
    assert row == "0" ==> n == 1;
    assert n == 1 && g != And ==> row == "0";
  }

  lemma {:induction false} DiagonalReadsBack(c: char, n: nat)
    requires n >= 1 && c in "01"
    ensures Recognised(DiagonalRows(c, n), n) ==
      if c == '1' then (if n == 1 then And else Or) else if n == 1 then BitwiseNot else Nand
  {
    DiagonalRowsAreDiagonal(c, n);
    if n >= 2 {
      DiagonalNotFew(c, n);
    } else {
      assert DiagonalRows(c, n)[0] == [c];
    }
  }

  /** Lists of rows that differ in a place are different. */
  lemma {:induction false} RowsDiffer(a: seq<string>, b: seq<string>, j: nat)
    requires a != [] && b != [] && (|a[0]| != |b[0]| || (j < |a[0]| && a[0][j] != b[0][j]))
    ensures a != b
  {
  }

  lemma {:induction false} OneBitRow(row: string)
    requires row == "1" || row == "0"
    ensures Recognised([row], 1) == if row == "1" then And else BitwiseNot
  {
    RowsDiffer([row], ["100"], 0);
    RowsDiffer([row], ["010"], 0);
    assert row[0] == if row == "1" then '1' else '0';
  }

  lemma {:induction false} XnorRows()
    ensures Recognised(["00", "11"], 2) == Xnor
    ensures Recognised(["000", "011", "101", "110"], 3) == Xnor
  {
    RowsDiffer(["00", "11"], ["01", "10"], 1);
    RowsDiffer(["000", "011", "101", "110"], ["001", "010", "100", "111"], 2);
    RowsDiffer(["000", "011", "101", "110"], ["011", "101", "110", "111"], 1);
  }

  lemma {:induction false} ParityReadsBack(g: Gate, n: nat)
    requires Printable(g, n) && IsParity(g)
    ensures Recognised(PrintedRows(g, n), n) == ReadsBack(g, n) != Generic
  {
    ParityRowsList(n, PrintedOdd(g));
    if n == 1 {
      OneBitRow(if PrintedOdd(g) then "1" else "0");
    } else if !PrintedOdd(g) {
      XnorRows();
    }
  }

  /** Gates printed from a fixed table. */
  lemma {:induction false} FixedReadsBack(g: Gate, n: nat)
    requires Printable(g, n) && !IsParity(g)
    requires g != And && g != Nor && g != LogicalNot && g != Or && g != Nand
    ensures Recognised(PrintedRows(g, n), n) == ReadsBack(g, n) != Generic
  {
    match g {
      case Gt =>
      case Lt => RowsDiffer(["010"], ["100"], 0);
      case AdderFunc =>
      case CarryFunc => RowsDiffer(["011", "101", "110", "111"], ["001", "010", "100", "111"], 1);
      case Smux2 =>
        RowsDiffer(["01-", "1-1"], ["01", "10"], 0);
        RowsDiffer(["01-", "1-1"], ["00", "11"], 0);
      case BitwiseNot => OneBitRow("0");
      case Buf => OneBitRow("1");
    }
  }

  /** A printed cover is read back as the type given by ReadsBack, never as GENERIC. */
  lemma {:induction false} PrintedIsRecognised(g: Gate, n: nat)
    requires Printable(g, n)
    ensures Recognised(PrintedRows(g, n), n) == ReadsBack(g, n) != Generic
  {
    match g {
      case And | Nor | LogicalNot => SingleReadsBack(g, n);
      case Or => DiagonalReadsBack('1', n);
      case Nand => DiagonalReadsBack('0', n);
      case Xor | Xnor | Equal | NotEqual => ParityReadsBack(g, n);
      case _ => FixedReadsBack(g, n);
    }
  }

  /** What is printed: the gate, but the negation of a comparison. */
  function PrintedValue(g: Gate, x: Inputs): bool
    requires Printable(g, |x|)
  {
    GateValue(g, x) != Comparison(g)
  }

  lemma {:induction false} ReadsBackSame(g: Gate, x: Inputs)
    requires Printable(g, |x|)
    ensures Fits(ReadsBack(g, |x|), |x|) && ReadsBack(g, |x|) != Mux2 && ReadsBack(g, |x|) != Generic
    ensures GateValue(ReadsBack(g, |x|), x) == PrintedValue(g, x)
  {
    if |x| == 1 {
      assert x[1..] == [];
      assert CountOnes(x) == if x[0] then 1 else 0;
    } else if |x| == 3 {
      Parity3(x);
    }
  }

  /** The printed cover computes the gate or, for the two comparisons, its negation, for every arity and input. */
  lemma {:induction false} PrintedCorrect(g: Gate, x: Inputs)
    requires Printable(g, |x|)
    ensures Rectangular(PrintedRows(g, |x|), |x|) && Covered(PrintedRows(g, |x|), x) == PrintedValue(g, x)
  {
    PrintedRectangular(g, |x|);
    PrintedIsRecognised(g, |x|);
    RecognitionSound(PrintedRows(g, |x|), x);
    ReadsBackSame(g, x);
  }

  /** The cover written for a gate of n inputs, as on-set rows. */
  method OutputNode(g: Gate, n: nat) returns (rows: seq<string>)
    requires Printable(g, n)
    ensures rows == PrintedRows(g, n)
    ensures Rectangular(rows, n) && forall x: Inputs {:trigger Covered(rows, x)} :: |x| == n ==>
      Covered(rows, x) == PrintedValue(g, x)
  {
    match g {
      case Gt => rows := ["100"];
      case Lt => rows := ["010"];
      case AdderFunc => rows := ["001", "010", "100", "111"];
      case CarryFunc => rows := ["011", "101", "110", "111"];
      case BitwiseNot => rows := ["0"];
      case Buf => rows := ["1"];
      case Smux2 => rows := ["01-", "1-1"];
      case And =>
        var s := PrintRepeated('1', n);
        rows := [s];
      case Or => rows := PrintDiagonal('1', n);
      case Nand => rows := PrintDiagonal('0', n);
      case Nor | LogicalNot =>
        var s := PrintRepeated('0', n);
        rows := [s];
      case Xor | Equal => rows := PrintParity(n, true);
      case Xnor | NotEqual => rows := PrintParity(n, false);
    }
    PrintedRectangular(g, n);
    forall x: Inputs | |x| == n
      ensures Covered(rows, x) == PrintedValue(g, x)
    {
      PrintedCorrect(g, x);
    }
  }

  function AsRows(patterns: seq<string>): (rows: seq<Row>)
    ensures |rows| == |patterns| && Patterns(rows) == patterns
  {
    var rows := seq(|patterns|, (r: nat) requires r < |patterns| => Row(patterns[r], "1"));
    assert Patterns(rows) == patterns;
    rows
  }

  /** Writing a gate and reading it back gives a gate, not a table, with the printed function. */
  method PrintThenRead(g: Gate, n: nat) returns (back: Gate)
    requires Printable(g, n)
    ensures back != Generic && back != Mux2 && Fits(back, n)
    ensures forall x: Inputs {:trigger GateValue(g, x)} :: |x| == n ==>
      GateValue(back, x) == (GateValue(g, x) != Comparison(g))
  {
    var patterns := OutputNode(g, n);
    var genericOutput, bitMap;
    PrintedRectangular(g, n);
    back, genericOutput, bitMap := ReadBitMapFindUnknownGate(n, AsRows(patterns), "");
    PrintedIsRecognised(g, n);
    forall x: Inputs | |x| == n
      ensures Fits(back, n) && back != Mux2 && GateValue(back, x) == PrintedValue(g, x)
    {
      ReadsBackSame(g, x);
    }
    assert |seq(n, _ => false)| == n;
  }

  // ----- decoded multiplexers -----

  /** The row of port i of a decoded multiplexer with m select and m data inputs. */
  function MuxRow(i: nat, m: nat): (s: string)
    ensures |s| == 2 * m
  {
    seq(2 * m, (j: nat) => if j == i || j == i + m then '1' else '-')
  }

  method DefineDecodedMux(m: nat) returns (rows: seq<string>)
    ensures |rows| == m && forall i :: 0 <= i < m ==> rows[i] == MuxRow(i, m)
  {
    rows := [];
    for i := 0 to m
      invariant |rows| == i && forall k :: 0 <= k < i ==> rows[k] == MuxRow(k, m)
    {
      var s := "";
      for j := 0 to 2 * m
        invariant s == MuxRow(i, m)[..j]
      {
        if i == j {
          s := s + "1";
        } else if i + m == j {
          s := s + "1";
        } else if i > m {
          s := s + "0";
        } else {
          s := s + "-";
        }
      }
      rows := rows + [s];
    }
  }

  /** A printed multiplexer with two or more ports comes back as a GENERIC table... */
  lemma {:induction false} MuxStaysGeneric(rows: seq<string>, m: nat)
    requires m >= 2 && |rows| == m && forall i :: 0 <= i < m ==> rows[i] == MuxRow(i, m)
    ensures Rectangular(rows, 2 * m) && Recognised(rows, 2 * m) == Generic
  {
    assert rows[0][0] == '1' && rows[0][m] == '1';
  }

  lemma {:induction false} MuxRowMatches(i: nat, m: nat, x: Inputs)
    requires i < m && |x| == 2 * m
    ensures Matches(MuxRow(i, m), x) <==> x[i] && x[i + m]
  {
    var row := MuxRow(i, m);
    assert BitMatches(row[i], x[i]) <==> x[i];
    assert BitMatches(row[i + m], x[i + m]) <==> x[i + m];
  }

  /** ...which ors the selected data inputs. */
  lemma {:induction false} MuxTable(rows: seq<string>, m: nat, x: Inputs)
    requires |rows| == m && |x| == 2 * m && forall i :: 0 <= i < m ==> rows[i] == MuxRow(i, m)
    ensures Rectangular(rows, 2 * m) && (Covered(rows, x) <==> exists i :: 0 <= i < m && x[i] && x[i + m])
  {
    if Covered(rows, x) {
      var r: nat :| r < m && Matches(rows[r], x);
      MuxRowMatches(r, m, x);
      assert x[r] && x[r + m];
    }
    if exists i :: 0 <= i < m && x[i] && x[i + m] {
      var i: nat :| i < m && x[i] && x[i + m];
      MuxRowMatches(i, m, x);
      assert Matches(rows[i], x);
    }
  }
}
