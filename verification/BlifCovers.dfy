/** Reading a cover back as a gate, and printing a gate as a cover. */
module BlifCovers {

  /** The node types a cover is read as, and those the printer writes covers for. */
  datatype Gate =
    | GndNode | VccNode
    | Gt | Lt | And | Nand | Or | Nor | LogicalNot | BitwiseNot | Buf | Xor | Xnor | Equal | NotEqual
    | Smux2 | AdderFunc | CarryFunc | Mux2
    | Generic

  datatype Row = Row(pattern: string, output: string)

  type Inputs = seq<bool>

  // ----- the functions -----

  function CountOnes(x: Inputs): nat {
    if x == [] then 0 else (if x[0] then 1 else 0) + CountOnes(x[1..])
  }

  predicate AllOne(x: Inputs) {
    forall i :: 0 <= i < |x| ==> x[i]
  }

  predicate SomeOne(x: Inputs) {
    exists i :: 0 <= i < |x| && x[i]
  }

  /** The number of inputs a gate takes; 0 stands for any. */
  function Arity(g: Gate): nat {
    match g
    case Gt | Lt | Smux2 | AdderFunc | CarryFunc => 3
    case BitwiseNot | Buf => 1
    case _ => 0
  }

  predicate Fits(g: Gate, n: nat) {
    if g == GndNode || g == VccNode then n == 0 else n >= 1 && (Arity(g) == 0 || n == Arity(g))
  }

  /** The Boolean function of a gate, as the simulator computes it. */
  function GateValue(g: Gate, x: Inputs): bool
    requires Fits(g, |x|) && g != Generic && g != Mux2
  {
    match g
    case GndNode => false
    case VccNode => true
    case Gt => x[0] && !x[1] && !x[2]
    case Lt => !x[0] && x[1] && !x[2]
    case And => AllOne(x)
    case Nand => !AllOne(x)
    case Or => SomeOne(x)
    case Nor | LogicalNot => !SomeOne(x)
    case BitwiseNot => !x[0]
    case Buf => x[0]
    case Xor | NotEqual => CountOnes(x) % 2 == 1
    case Xnor | Equal => CountOnes(x) % 2 == 0
    case Smux2 => if x[0] then x[2] else x[1]
    case AdderFunc => (x[0] != x[1]) != x[2]
    case CarryFunc => (x[0] && x[1]) || (x[0] && x[2]) || (x[1] && x[2])
  }

  predicate BitMatches(c: char, b: bool) {
    c == '-' || c == (if b then '1' else '0')
  }

  predicate Matches(pattern: string, x: Inputs)
    requires |pattern| == |x|
  {
    forall i :: 0 <= i < |x| ==> BitMatches(pattern[i], x[i])
  }

  ghost predicate Rectangular(bitMap: seq<string>, n: nat) {
    forall r :: 0 <= r < |bitMap| ==> |bitMap[r]| == n && forall i :: 0 <= i < n ==> bitMap[r][i] in "01-"
  }

  /** The sum of products of the patterns. */
  ghost predicate Covered(bitMap: seq<string>, x: Inputs)
    requires Rectangular(bitMap, |x|)
  {
    exists r :: 0 <= r < |bitMap| && Matches(bitMap[r], x)
  }

  // ----- recognition -----

  /** Row i has the given character in column i and don't-cares elsewhere. */
  predicate DiagonalRow(row: string, i: nat, c: char) {
    i < |row| && row[i] == c && forall j :: 0 <= j < |row| && j != i ==> row[j] == '-'
  }

  predicate Diagonal(bitMap: seq<string>, c: char) {
    forall i :: 0 <= i < |bitMap| ==> DiagonalRow(bitMap[i], i, c)
  }

  predicate AllChar(row: string, c: char) {
    forall i :: 0 <= i < |row| ==> row[i] == c
  }

  function RecognisedSingle(row: string): Gate {
    if row == "100" then Gt
    else if row == "010" then Lt
    else if AllChar(row, '1') then And
    else if row == "0" then BitwiseNot
    else if AllChar(row, '0') then Nor
    else Generic
  }

  function RecognisedFew(bitMap: seq<string>): Gate
    requires bitMap != []
  {
    if |bitMap| == 1 then RecognisedSingle(bitMap[0])
    else if |bitMap| == 2 then
      if bitMap == ["01", "10"] then Xor
      else if bitMap == ["00", "11"] then Xnor
      else if bitMap == ["01-", "1-1"] then Smux2
      else Generic
    else if |bitMap| == 4 then
      if bitMap == ["001", "010", "100", "111"] then AdderFunc
      else if bitMap == ["011", "101", "110", "111"] then CarryFunc
      else if bitMap == ["000", "011", "101", "110"] then Xnor
      else Generic
    else Generic
  }

  /** The type an on-set cover is read as. */
  function Recognised(bitMap: seq<string>, n: nat): Gate
    requires bitMap != []
  {
    var few := RecognisedFew(bitMap);
    if few != Generic then few
    else if |bitMap| == n && Diagonal(bitMap, '1') then Or
    else if |bitMap| == n && Diagonal(bitMap, '0') then Nand
    else Generic
  }

  /** How many columns after column i, going round, column k comes. */
  function Offset(i: nat, k: nat, n: nat): nat
    requires i < n && k < n
  {
    if k >= i then k - i else k + n - i
  }

  lemma {:induction false} Wrapped(x: nat, n: nat)
    requires 0 < n && x < 2 * n
    ensures x % n == if x < n then x else x - n
  {
  }

  lemma {:induction false} WrapAround(i: nat, j: nat, n: nat)
    requires i < n && 1 <= j < n
    ensures (i + j) % n < n && (i + j) % n != i && Offset(i, (i + j) % n, n) == j
  {
    Wrapped(i + j, n);
  }

  lemma {:induction false} OffsetInjective(i: nat, k: nat, n: nat, j: nat)
    requires i < n && k < n && Offset(i, k, n) == j
    ensures forall l :: 0 <= l < n && Offset(i, l, n) == j ==> l == k
  {
  }

  /** Whether row i is on the diagonal, scanned cyclically from column i + 1 as the reader does. */
  method ScanDiagonalRow(row: string, i: nat, c: char) returns (ok: bool)
    requires i < |row|
    ensures ok == DiagonalRow(row, i, c)
  {
    var n := |row|;
    if row[i] != c {
      return false;
    }
    var j := 1;
    while j < n
      invariant 1 <= j <= n
      invariant forall k :: 0 <= k < n && k != i && Offset(i, k, n) < j ==> row[k] == '-'
    {
      WrapAround(i, j, n);
      var k := (i + j) % n;
      if row[k] != '-' {
        return false;
      }
      OffsetInjective(i, k, n, j);
      j := j + 1;
    }
    ok := true;
  }

  method ScanDiagonal(bitMap: seq<string>, n: nat, c: char) returns (ok: bool)
    requires Rectangular(bitMap, n) && |bitMap| == n
    ensures ok == Diagonal(bitMap, c)
  {
    var i := 0;
    while i < |bitMap|
      invariant 0 <= i <= |bitMap|
      invariant forall r :: 0 <= r < i ==> DiagonalRow(bitMap[r], r, c)
    {
      var row := ScanDiagonalRow(bitMap[i], i, c);
      if !row {
        return false;
      }
      i := i + 1;
    }
    ok := true;
  }

  /**
   * The decoded-multiplexer scan. Its inner loop stops at the number of lines at the latest, never at
   * the number of inputs it is compared with, so no cover passes.
   */
  method ScanMux(bitMap: seq<string>, n: nat) returns (ok: bool)
    requires Rectangular(bitMap, n) && bitMap != [] && |bitMap| * 2 == n
    ensures !ok
  {
    var lines := |bitMap|;
    var i, passed := 0, true;
    while i < lines && passed
      invariant i == 0
      decreases lines - i, passed
    {
      passed := false;
      if bitMap[i][i] == '1' && bitMap[i][i + lines] == '1' {
        var j := 1;
        while j < lines
          invariant 1 <= j <= lines
        {
          var k := (i + j) % lines;
          if bitMap[i][k] != '-' || bitMap[i][k + lines] != '-' {
            break;
          }
          j := j + 1;
        }
        passed := j == n;
      }
      if passed {
        i := i + 1;
      }
    }
    ok := i == lines;
  }

  /** Whether a row consists of one character only. */
  method ScanAll(row: string, c: char) returns (ok: bool)
    ensures ok == AllChar(row, c)
  {
    var i := 0;
    while i < |row| && row[i] == c
      invariant 0 <= i <= |row| && forall k :: 0 <= k < i ==> row[k] == c
    {
      i := i + 1;
    }
    ok := i == |row|;
  }

  method RecogniseSingle(row: string) returns (g: Gate)
    ensures g == RecognisedSingle(row)
  {
    g := Generic;
    if row == "100" {
      g := Gt;
    } else if row == "010" {
      g := Lt;
    } else {
      var ones := ScanAll(row, '1');
      if ones {
        g := And;
      }
      if row == "0" && g == Generic {
        g := BitwiseNot;
      }
      var zeros := ScanAll(row, '0');
      if zeros && g == Generic {
        g := Nor;
      }
    }
  }

  method RecogniseFew(bitMap: seq<string>) returns (g: Gate)
    requires bitMap != []
    ensures g == RecognisedFew(bitMap)
  {
    g := Generic;
    if |bitMap| == 1 {
      g := RecogniseSingle(bitMap[0]);
    } else if |bitMap| == 2 {
      assert bitMap == [bitMap[0], bitMap[1]];
      if bitMap[0] == "01" && bitMap[1] == "10" {
        g := Xor;
      } else if bitMap[0] == "00" && bitMap[1] == "11" {
        g := Xnor;
      } else if bitMap[0] == "01-" && bitMap[1] == "1-1" {
        g := Smux2;
      }
    } else if |bitMap| == 4 {
      assert bitMap == [bitMap[0], bitMap[1], bitMap[2], bitMap[3]];
      if bitMap[0] == "001" && bitMap[1] == "010" && bitMap[2] == "100" && bitMap[3] == "111" {
        g := AdderFunc;
      } else if bitMap[0] == "011" && bitMap[1] == "101" && bitMap[2] == "110" && bitMap[3] == "111" {
        g := CarryFunc;
      } else if bitMap[0] == "000" && bitMap[1] == "011" && bitMap[2] == "101" && bitMap[3] == "110" {
        g := Xnor;
      }
    }
  }

  function Patterns(rows: seq<Row>): (p: seq<string>)
    ensures |p| == |rows| && forall r :: 0 <= r < |rows| ==> p[r] == rows[r].pattern
  {
    seq(|rows|, (r: nat) requires r < |rows| => rows[r].pattern)
  }

  /** What stands behind the blanks at the start of a line. */
  function BehindBlanks(line: string): string {
    if line != "" && line[0] == ' ' then BehindBlanks(line[1..]) else line
  }

  /** The line after a header without inputs, "" if it is empty, makes the signal a constant 1. */
  predicate ConstantOne(line: string) {
    BehindBlanks(line) == "1"
  }

  /**
   * Reads the rows of a cover; only the output of the last row decides between on-set and off-set. Without
   * inputs the next line decides: it is taken for a 1 unless it is empty or exactly a blank and a 0.
   */
  method ReadBitMapFindUnknownGate(n: nat, rows: seq<Row>, line: string)
    returns (g: Gate, genericOutput: bool, bitMap: seq<string>)
    requires n >= 1 ==> rows != [] && Rectangular(Patterns(rows), n)
    ensures n >= 1 ==> bitMap == Patterns(rows) && genericOutput == (rows[|rows| - 1].output == "1")
    ensures n >= 1 ==> g == if genericOutput then Recognised(bitMap, n) else Generic
    ensures n == 0 ==> bitMap == [] && (g == VccNode || g == GndNode) && (ConstantOne(line) ==> g == VccNode)
    ensures n == 0 && !ConstantOne(line) ==> (g == GndNode <==> line == "" || line == " 0")
  {
    if n == 0 {
      genericOutput, bitMap := false, [];
      if line == "" {
        g := GndNode;
      } else if line == " 1" {
        g := VccNode;
      } else if line == " 0" {
        assert BehindBlanks(line) == BehindBlanks(line[1..]) && line[1..] == "0";
        g := GndNode;
      } else {
        g := VccNode;
      }
      return;
    }
    bitMap := [];
    var output := "";
    for r := 0 to |rows|
      invariant bitMap == Patterns(rows)[..r]
      invariant r > 0 ==> output == rows[r - 1].output
    {
      bitMap := bitMap + [rows[r].pattern];
      output := rows[r].output;
    }
    g := Generic;
    genericOutput := output == "1";
    if genericOutput {
      g := RecogniseFew(bitMap);
      if |bitMap| == n && g == Generic {
        var diagonal := ScanDiagonal(bitMap, n, '1');
        if diagonal {
          g := Or;
        } else {
          diagonal := ScanDiagonal(bitMap, n, '0');
          if diagonal {
            g := Nand;
          }
        }
      }
      if |bitMap| * 2 == n && g == Generic {
        var mux := ScanMux(bitMap, n);
        if mux {
          g := Mux2;
        }
      }
    }
  }

  // ----- soundness of recognition -----

  lemma {:induction false} MatchesRow3(row: string, x: Inputs)
    requires |row| == |x| == 3
    ensures Matches(row, x) <==> BitMatches(row[0], x[0]) && BitMatches(row[1], x[1]) && BitMatches(row[2], x[2])
  {
  }

  lemma {:induction false} MatchesRow2(row: string, x: Inputs)
    requires |row| == |x| == 2
    ensures Matches(row, x) <==> BitMatches(row[0], x[0]) && BitMatches(row[1], x[1])
  {
  }

  lemma {:induction false} SingleSound(row: string, x: Inputs)
    requires |row| == |x| >= 1 && RecognisedSingle(row) != Generic
    ensures Fits(RecognisedSingle(row), |x|)
    ensures RecognisedSingle(row) != Mux2 && GateValue(RecognisedSingle(row), x) == Matches(row, x)
  {
    if |x| == 3 {
      MatchesRow3(row, x);
    }
  }

  lemma {:induction false} Parity2(x: Inputs)
    requires |x| == 2
    ensures CountOnes(x) % 2 == 1 <==> x[0] != x[1]
  {
    assert x[1..][1..] == [];
    assert CountOnes(x[1..]) == if x[1] then 1 else 0;
  }

  lemma {:induction false} Parity3(x: Inputs)
    requires |x| == 3
    ensures CountOnes(x) % 2 == 1 <==> ((x[0] != x[1]) != x[2])
  {
    assert x[1..] == [x[1], x[2]];
    Parity2(x[1..]);
  }

  lemma {:induction false} CoveredTwo(bitMap: seq<string>, x: Inputs)
    requires Rectangular(bitMap, |x|) && |bitMap| == 2
    ensures Covered(bitMap, x) <==> Matches(bitMap[0], x) || Matches(bitMap[1], x)
  {
  }

  lemma {:induction false} CoveredFour(bitMap: seq<string>, x: Inputs)
    requires Rectangular(bitMap, |x|) && |bitMap| == 4
    ensures Covered(bitMap, x) <==>
      Matches(bitMap[0], x) || Matches(bitMap[1], x) || Matches(bitMap[2], x) || Matches(bitMap[3], x)
  {
  }

  lemma {:induction false} SmuxSound(bitMap: seq<string>, x: Inputs)
    requires |x| == 3 && bitMap == ["01-", "1-1"] && Rectangular(bitMap, 3)
    ensures GateValue(Smux2, x) == Covered(bitMap, x)
  {
    CoveredTwo(bitMap, x);
    MatchesRow3(bitMap[0], x);
    MatchesRow3(bitMap[1], x);
  }

  lemma {:induction false} TwoSound(bitMap: seq<string>, x: Inputs)
    requires Rectangular(bitMap, |x|) && |bitMap| == 2 && RecognisedFew(bitMap) != Generic
    ensures |x| >= 2 && Fits(RecognisedFew(bitMap), |x|)
    ensures RecognisedFew(bitMap) != Mux2 && GateValue(RecognisedFew(bitMap), x) == Covered(bitMap, x)
  {
    assert |bitMap[0]| == |x|;
    if |x| == 2 {
      CoveredTwo(bitMap, x);
      Parity2(x);
      MatchesRow2(bitMap[0], x);
      MatchesRow2(bitMap[1], x);
    } else {
      SmuxSound(bitMap, x);
    }
  }

  lemma {:induction false} FourSound(bitMap: seq<string>, x: Inputs)
    requires Rectangular(bitMap, |x|) && |bitMap| == 4 && RecognisedFew(bitMap) != Generic
    ensures |x| == 3 && Fits(RecognisedFew(bitMap), |x|)
    ensures RecognisedFew(bitMap) != Mux2 && GateValue(RecognisedFew(bitMap), x) == Covered(bitMap, x)
  {
    CoveredFour(bitMap, x);
    assert |bitMap[0]| == |x|;
    Parity3(x);
    MatchesRow3(bitMap[0], x);
    MatchesRow3(bitMap[1], x);
    MatchesRow3(bitMap[2], x);
    MatchesRow3(bitMap[3], x);
  }

  lemma {:induction false} DiagonalMatches(row: string, i: nat, c: char, x: Inputs)
    requires |row| == |x| && DiagonalRow(row, i, c) && c in "01"
    ensures Matches(row, x) <==> x[i] == (c == '1')
  {
    if x[i] == (c == '1') {
      forall j | 0 <= j < |x|
        ensures BitMatches(row[j], x[j])
      {
      }
    } else {
      assert !BitMatches(row[i], x[i]);
    }
  }

  lemma {:induction false} DiagonalSound(bitMap: seq<string>, x: Inputs, c: char)
    requires Rectangular(bitMap, |x|) && |bitMap| == |x| && Diagonal(bitMap, c) && c in "01"
    ensures Covered(bitMap, x) <==> exists i :: 0 <= i < |x| && x[i] == (c == '1')
  {
    forall i | 0 <= i < |x|
      ensures Matches(bitMap[i], x) <==> x[i] == (c == '1')
    {
      DiagonalMatches(bitMap[i], i, c, x);
    }
  }

  /** Whatever type other than GENERIC a cover is read as, the gate computes the cover on every input. */
  lemma {:induction false} RecognitionSound(bitMap: seq<string>, x: Inputs)
    requires bitMap != [] && |x| >= 1 && Rectangular(bitMap, |x|) && Recognised(bitMap, |x|) != Generic
    ensures Recognised(bitMap, |x|) != Mux2 && Fits(Recognised(bitMap, |x|), |x|)
    ensures GateValue(Recognised(bitMap, |x|), x) == Covered(bitMap, x)
  {
    if RecognisedFew(bitMap) != Generic {
      if |bitMap| == 1 {
        SingleSound(bitMap[0], x);
      } else if |bitMap| == 2 {
        TwoSound(bitMap, x);
      } else {
        FourSound(bitMap, x);
      }
    } else if Diagonal(bitMap, '1') && |bitMap| == |x| {
      DiagonalSound(bitMap, x, '1');
    } else {
      DiagonalSound(bitMap, x, '0');
    }
  }

  /**
   * The function a cover is read as: its patterns list where it is 1 or where it is 0. The last row says which,
   * also for the others.
   */
  ghost predicate CoverValue(rows: seq<Row>, x: Inputs)
    requires Rectangular(Patterns(rows), |x|) && rows != []
  {
    Covered(Patterns(rows), x) == (rows[|rows| - 1].output == "1")
  }

  /** What the simulator computes for the node the reader made. */
  ghost predicate NodeValue(g: Gate, genericOutput: bool, bitMap: seq<string>, x: Inputs)
    requires Rectangular(bitMap, |x|) && g != Mux2 && (g != Generic ==> Fits(g, |x|))
  {
    if g == Generic then Covered(bitMap, x) == genericOutput else GateValue(g, x)
  }

  /** Reading any cover, to the node that is simulated, keeps its function. */
  method ReadCover(n: nat, rows: seq<Row>, line: string)
    returns (g: Gate, genericOutput: bool, bitMap: seq<string>)
    requires n >= 1 ==> rows != [] && Rectangular(Patterns(rows), n)
    ensures g != Mux2 && (g != Generic ==> Fits(g, n)) && Rectangular(bitMap, n)
    ensures n >= 1 ==> forall x: Inputs {:trigger CoverValue(rows, x)} :: |x| == n ==>
      NodeValue(g, genericOutput, bitMap, x) == CoverValue(rows, x)
    ensures n == 0 ==>
      (NodeValue(g, genericOutput, bitMap, []) == ConstantOne(line) <==>
       ConstantOne(line) || line == "" || line == " 0")
  {
    g, genericOutput, bitMap := ReadBitMapFindUnknownGate(n, rows, line);
    if n == 0 {
      return;
    }
    forall x: Inputs | |x| == n
      ensures g != Mux2 && (g != Generic ==> Fits(g, n))
        && NodeValue(g, genericOutput, bitMap, x) == CoverValue(rows, x)
    {
      if g != Generic {
        RecognitionSound(bitMap, x);
      }
    }
    assert |seq(n, _ => false)| == n;
  }
}
