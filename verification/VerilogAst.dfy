/** Verilog syntax trees as the front end builds them, and the meaning of procedural code. */
module VerilogAst {
  import opened Wrappers
  import opened Bits

  datatype Op =
    | Add | Sub | Mul | Div
    | Lt | Gt | LogicalEqual | NotEqual | Lte | Gte
    | LogicalOr | LogicalAnd | LogicalNot
    | ShiftLeft | ShiftRight | Power
    | OtherOp(id: nat)

  /** Node types; the name of an array reference hangs off the node and is not one of its children. */
  datatype Tag =
    | Binary(op: Op)
    | Unary(op: Op)
    | Ternary
    | ArrayRef(name: string)
    | Block
    | Blocking
    | NonBlocking
    | If
    | For
    | ModuleInstance
    | OtherTag(id: nat)

  datatype Ast =
    | Missing
    | Ident(name: string)
    | Num(value: int)
    | Node(tag: Tag, children: seq<Ast>)

  // ----- state -----

  datatype Cell = Scalar(name: string) | Element(name: string, index: int)

  /** Current values, and the non-blocking assignments waiting for the end of the time step. */
  datatype State = State(now: map<Cell, int>, later: map<Cell, int>)

  function Look(s: State, c: Cell): int {
    if c in s.now then s.now[c] else 0
  }

  function Write(s: State, c: Cell, v: int): (r: State)
    ensures Look(r, c) == v && r.later == s.later
    ensures forall d :: d != c ==> Look(r, d) == Look(s, d)
  {
    s.(now := s.now[c := v])
  }

  // ----- expressions -----

  function Truth(b: bool): int {
    if b then 1 else 0
  }

  function Abs(x: int): nat {
    if x >= 0 then x else -x
  }

  /** Division that drops the fraction, as C and Verilog integer division do. */
  function TruncDiv(x: int, y: int): int
    requires y != 0
  {
    if (x >= 0) == (y > 0) then Abs(x) / Abs(y) else -(Abs(x) / Abs(y))
  }

  /** Exponentiation of IEEE Std 1364-2005, section 5.1.5, with its table for negative exponents. */
  function Raise(x: int, n: int): Option<int> {
    if n >= 0 then Some(Pow(x, n))
    else if x == 0 then None
    else if x == 1 || (x == -1 && n % 2 == 0) then Some(1)
    else if x == -1 then Some(-1)
    else Some(0)
  }

  function Apply(op: Op, x: int, y: int): Option<int> {
    match op
    case Add => Some(x + y)
    case Sub => Some(x - y)
    case Mul => Some(x * y)
    case Div => if y == 0 then None else Some(TruncDiv(x, y))
    case Lt => Some(Truth(x < y))
    case Gt => Some(Truth(x > y))
    case LogicalEqual => Some(Truth(x == y))
    case NotEqual => Some(Truth(x != y))
    case Lte => Some(Truth(x <= y))
    case Gte => Some(Truth(x >= y))
    case LogicalOr => Some(Truth(x != 0 || y != 0))
    case LogicalAnd => Some(Truth(x != 0 && y != 0))
    case ShiftLeft => if y < 0 then None else Some(x * Pow2(y))
    case ShiftRight => if x < 0 || y < 0 then None else Some(x / Pow2(y))
    case Power => Raise(x, y)
    case _ => None
  }

  function ApplyUnary(op: Op, x: int): Option<int> {
    match op
    case LogicalNot => Some(Truth(x == 0))
    case Add => Some(x)
    case Sub => Some(-x)
    case _ => None
  }

  /** The value of an expression; None where it has none, such as after division by zero. */
  function Eval(e: Ast, s: State): Option<int> {
    match e
    case Missing => None
    case Ident(x) => Some(Look(s, Scalar(x)))
    case Num(v) => Some(v)
    case Node(tag, cs) =>
      if tag.Binary? && |cs| == 2 then
        var x, y := Eval(cs[0], s), Eval(cs[1], s);
        if x.Some? && y.Some? then Apply(tag.op, x.value, y.value) else None
      else if tag.Unary? && |cs| == 1 then
        var x := Eval(cs[0], s);
        if x.Some? then ApplyUnary(tag.op, x.value) else None
      else if tag.Ternary? && |cs| == 3 then
        var c := Eval(cs[0], s);
        if c.None? then None else if c.value != 0 then Eval(cs[1], s) else Eval(cs[2], s)
      else if tag.ArrayRef? && |cs| == 1 then
        var i := Eval(cs[0], s);
        if i.Some? then Some(Look(s, Element(tag.name, i.value))) else None
      else None
  }

  // ----- statements -----

  /** The cell an assignment writes. */
  function Target(lhs: Ast, s: State): Option<Cell> {
    match lhs
    case Ident(x) => Some(Scalar(x))
    case Node(tag, cs) =>
      if tag.ArrayRef? && |cs| == 1 then
        var i := Eval(cs[0], s);
        if i.Some? then Some(Element(tag.name, i.value)) else None
      else None
    case _ => None
  }

  /** Runs a statement; None when it has no meaning or the fuel runs out, which bounds loop iterations. */
  function Exec(fuel: nat, a: Ast, s: State): Option<State>
    decreases fuel, a, 1
  {
    match a
    case Missing => Some(s)
    case Ident(_) => None
    case Num(_) => None
    case Node(tag, cs) =>
      if tag.Block? then ExecSeq(fuel, cs, s)
      else if (tag.Blocking? || tag.NonBlocking?) && |cs| == 2 then
        var cell, v := Target(cs[0], s), Eval(cs[1], s);
        if cell.None? || v.None? then None
        else if tag.Blocking? then Some(Write(s, cell.value, v.value))
        else Some(s.(later := s.later[cell.value := v.value]))
      else if tag.If? && |cs| == 3 then
        var c := Eval(cs[0], s);
        if c.None? then None else if c.value != 0 then Exec(fuel, cs[1], s) else Exec(fuel, cs[2], s)
      else if tag.For? && |cs| == 4 then
        var start := Exec(fuel, cs[0], s);
        if start.None? then None else ExecLoop(fuel, a, start.value)
      else None
  }

  function ExecSeq(fuel: nat, cs: seq<Ast>, s: State): Option<State>
    decreases fuel, cs, 0
  {
    if cs == [] then Some(s)
    else
      var r := Exec(fuel, cs[0], s);
      if r.None? then None else ExecSeq(fuel, cs[1..], r.value)
  }

  /** The loop of a for statement, after its initial assignment. */
  function ExecLoop(fuel: nat, loop: Ast, s: State): Option<State>
    requires loop.Node? && |loop.children| == 4
    decreases fuel, loop, 0
  {
    var c := Eval(loop.children[1], s);
    if c.None? then None
    else if c.value == 0 then Some(s)
    else if fuel == 0 then None
    else
      var r := Exec(fuel - 1, loop.children[3], s);
      if r.None? then None
      else
        var t := Exec(fuel - 1, loop.children[2], r.value);
        if t.None? then None else ExecLoop(fuel - 1, loop, t.value)
  }

  // ----- more fuel changes nothing -----

  lemma {:induction false} ExecMonotone(fuel: nat, more: nat, a: Ast, s: State)
    requires fuel <= more && Exec(fuel, a, s).Some?
    ensures Exec(more, a, s) == Exec(fuel, a, s)
    decreases fuel, a, 1
  {
    match a {
      case Missing =>
      case Node(tag, cs) =>
        if tag.Block? {
          ExecSeqMonotone(fuel, more, cs, s);
        } else if tag.If? && |cs| == 3 {
          if Eval(cs[0], s).value != 0 {
            ExecMonotone(fuel, more, cs[1], s);
          } else {
            ExecMonotone(fuel, more, cs[2], s);
          }
        } else if tag.For? && |cs| == 4 {
          ExecMonotone(fuel, more, cs[0], s);
          ExecLoopMonotone(fuel, more, a, Exec(fuel, cs[0], s).value);
        }
    }
  }

  lemma {:induction false} ExecSeqMonotone(fuel: nat, more: nat, cs: seq<Ast>, s: State)
    requires fuel <= more && ExecSeq(fuel, cs, s).Some?
    ensures ExecSeq(more, cs, s) == ExecSeq(fuel, cs, s)
    decreases fuel, cs, 0
  {
    if cs != [] {
      ExecMonotone(fuel, more, cs[0], s);
      ExecSeqMonotone(fuel, more, cs[1..], Exec(fuel, cs[0], s).value);
    }
  }

  lemma {:induction false} ExecLoopMonotone(fuel: nat, more: nat, loop: Ast, s: State)
    requires loop.Node? && |loop.children| == 4
    requires fuel <= more && ExecLoop(fuel, loop, s).Some?
    ensures ExecLoop(more, loop, s) == ExecLoop(fuel, loop, s)
    decreases fuel, loop, 0
  {
    if Eval(loop.children[1], s).value != 0 {
      ExecMonotone(fuel - 1, more - 1, loop.children[3], s);
      var r := Exec(fuel - 1, loop.children[3], s).value;
      ExecMonotone(fuel - 1, more - 1, loop.children[2], r);
      ExecLoopMonotone(fuel - 1, more - 1, loop, Exec(fuel - 1, loop.children[2], r).value);
    }
  }

  /** Statement a takes state s to state r. */
  ghost predicate Runs(a: Ast, s: State, r: State) {
    exists fuel: nat :: Exec(fuel, a, s) == Some(r)
  }

  lemma {:induction false} RunsDeterministic(a: Ast, s: State, r: State, r': State)
    requires Runs(a, s, r) && Runs(a, s, r')
    ensures r == r'
  {
    var f: nat :| Exec(f, a, s) == Some(r);
    var f': nat :| Exec(f', a, s) == Some(r');
    ExecMonotone(f, f + f', a, s);
    ExecMonotone(f', f + f', a, s);
  }

  lemma {:induction false} ExecSeqAppend(fuel: nat, a: seq<Ast>, b: seq<Ast>, s: State)
    ensures ExecSeq(fuel, a + b, s) ==
      var r := ExecSeq(fuel, a, s);
      if r.None? then None else ExecSeq(fuel, b, r.value)
  {
    if a == [] {
      assert a + b == b;
    } else {
      assert (a + b)[1..] == a[1..] + b;
      var r := Exec(fuel, a[0], s);
      if r.Some? {
        ExecSeqAppend(fuel, a[1..], b, r.value);
      }
    }
  }
}
