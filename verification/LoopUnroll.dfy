/** Unrolling a for statement into copies of its body. */
module LoopUnroll {
  import opened Wrappers
  import opened VerilogAst

  // ----- substituting the loop variable -----

  /** The copy of a body with the loop variable replaced in its descendants; the root itself stays. */
  function Fill(a: Ast, i: string, v: int): Ast
    decreases a, 0
  {
    match a
    case Node(tag, cs) => Node(tag, FillChildren(cs, i, v))
    case _ => a
  }

  /** Of a module instance only the named instance, its first child, is searched. */
  function FillChild(c: Ast, i: string, v: int): Ast
    decreases c, 1
  {
    match c
    case Ident(x) => if x == i then Num(v) else c
    case Node(tag, cs) =>
      if tag.ModuleInstance? && cs != [] && !(cs[0].Node? && cs[0].tag.ModuleInstance?) then
        Node(tag, [Fill(cs[0], i, v)] + cs[1..])
      else Fill(c, i, v)
    case _ => c
  }

  function FillChildren(cs: seq<Ast>, i: string, v: int): (r: seq<Ast>)
    ensures |r| == |cs|
    ensures forall k :: 0 <= k < |cs| ==> r[k] == FillChild(cs[k], i, v)
    decreases cs
  {
    if cs == [] then [] else [FillChild(cs[0], i, v)] + FillChildren(cs[1..], i, v)
  }

  // ----- what is replaced, place by place -----

  /** The subtree at the end of a path of child numbers. */
  function At(a: Ast, path: seq<nat>): Option<Ast>
    decreases |path|
  {
    if path == [] then Some(a)
    else if a.Node? && path[0] < |a.children| then At(a.children[path[0]], path[1..])
    else None
  }

  /** A module instance whose first child is the instance it names. */
  predicate NamesInstance(a: Ast) {
    && a.Node? && a.tag.ModuleInstance? && a.children != []
    && !(a.children[0].Node? && a.children[0].tag.ModuleInstance?)
  }

  /** From a on, the path goes through no named instance but by its first child, and past that. */
  ghost predicate Passes(a: Ast, path: seq<nat>) {
    forall n: nat {:trigger At(a, path[..n])} ::
      n < |path| && At(a, path[..n]).Some? && NamesInstance(At(a, path[..n]).value) ==>
        path[n] == 0 && n + 1 < |path|
  }

  /** The place is searched for the loop variable: it lies below the root, and not in the rest of an instance. */
  ghost predicate Searched(a: Ast, path: seq<nat>) {
    path != [] && a.Node? && path[0] < |a.children| && Passes(a.children[path[0]], path[1..])
  }

  /** What stands at a place: the loop variable's value for the variable, the same leaf, or a node of its kind. */
  ghost predicate Replaced(was: Ast, now: Ast, i: string, v: int, searched: bool) {
    if was.Node? then now.Node? && now.tag == was.tag && |now.children| == |was.children|
    else now == if searched && was == Ident(i) then Num(v) else was
  }

  ghost predicate FilledAt(a: Ast, copy: Ast, i: string, v: int, path: seq<nat>) {
    && (At(a, path).Some? <==> At(copy, path).Some?)
    && (At(a, path).Some? ==> Replaced(At(a, path).value, At(copy, path).value, i, v, Searched(a, path)))
  }

  lemma {:induction false} PassesOn(a: Ast, path: seq<nat>)
    requires path != [] && a.Node? && path[0] < |a.children|
    ensures Passes(a, path) <==>
      (NamesInstance(a) ==> path[0] == 0 && 1 < |path|) && Passes(a.children[path[0]], path[1..])
  {
    var c, rest := a.children[path[0]], path[1..];
    forall n: nat | n < |rest|
      ensures At(c, rest[..n]) == At(a, path[..n + 1])
    {
      assert path[..n + 1][1..] == rest[..n];
    }
    assert path[..0] == [] && At(a, path[..0]) == Some(a);
    if Passes(a, path) {
      forall n: nat | n < |rest| && At(c, rest[..n]).Some? && NamesInstance(At(c, rest[..n]).value)
        ensures rest[n] == 0 && n + 1 < |rest|
      {
        assert At(a, path[..n + 1]).Some?;
      }
    }
    if (NamesInstance(a) ==> path[0] == 0 && 1 < |path|) && Passes(c, rest) {
      forall n: nat | n < |path| && At(a, path[..n]).Some? && NamesInstance(At(a, path[..n]).value)
        ensures path[n] == 0 && n + 1 < |path|
      {
        if n > 0 {
          assert At(c, rest[..n - 1]).Some?;
        }
      }
    }
  }

  /** A child is filled at every place, and at its own as well. */
  lemma {:induction false} ChildFilledAt(c: Ast, i: string, v: int, path: seq<nat>)
    ensures var now := FillChild(c, i, v);
      && (At(c, path).Some? <==> At(now, path).Some?)
      && (At(c, path).Some? ==> Replaced(At(c, path).value, At(now, path).value, i, v, Passes(c, path)))
    decreases |path|
  {
    if c.Node? && path != [] && path[0] < |c.children| {
      PassesOn(c, path);
      var rest := path[1..];
      if NamesInstance(c) {
        if path[0] == 0 && rest != [] && c.children[0].Node? && rest[0] < |c.children[0].children| {
          PassesOn(c.children[0], rest);
          NamedFilledAt(c.children[0], i, v, rest);
        }
      } else {
        ChildFilledAt(c.children[path[0]], i, v, rest);
      }
    }
  }

  lemma {:induction false} NamedFilledAt(named: Ast, i: string, v: int, path: seq<nat>)
    requires path != []
    ensures FilledAt(named, Fill(named, i, v), i, v, path)
    decreases |path|, 0
  {
    if named.Node? && path[0] < |named.children| {
      ChildFilledAt(named.children[path[0]], i, v, path[1..]);
    }
  }

  /** The copy has the shape of the body, and the value of the loop variable for it wherever that is searched. */
  lemma {:induction false} BodyFilledAt(body: Ast, i: string, v: int, path: seq<nat>)
    ensures FilledAt(body, Fill(body, i, v), i, v, path)
  {
    if path != [] {
      NamedFilledAt(body, i, v, path);
    }
  }

  method DupAndFillBody(body: Ast, i: string, v: int) returns (copy: Ast)
    ensures copy == Fill(body, i, v)
    ensures forall path: seq<nat> :: FilledAt(body, copy, i, v, path)
    decreases body
  {
    forall path: seq<nat>
      ensures FilledAt(body, Fill(body, i, v), i, v, path)
    {
      BodyFilledAt(body, i, v, path);
    }
    if !body.Node? {
      return body;
    }
    var children := body.children;
    var k := 0;
    while k < |children|
      invariant 0 <= k <= |children| == |body.children|
      invariant forall j :: 0 <= j < k ==> children[j] == FillChild(body.children[j], i, v)
      invariant forall j :: k <= j < |children| ==> children[j] == body.children[j]
    {
      var child := children[k];
      if child.Ident? {
        if child.name == i {
          children := children[k := Num(v)];
        }
      } else if child.Node? {
        var cs := child.children;
        if child.tag.ModuleInstance? && cs != [] && !(cs[0].Node? && cs[0].tag.ModuleInstance?) {
          var named := DupAndFillBody(cs[0], i, v);
          children := children[k := Node(child.tag, [named] + cs[1..])];
        } else if |cs| > 0 {
          var filled := DupAndFillBody(child, i, v);
          children := children[k := filled];
        }
      }
      k := k + 1;
    }
    assert children == FillChildren(body.children, i, v);
    copy := Node(body.tag, children);
  }

  // ----- conditions -----

  predicate IsComparison(op: Op) {
    op == Lt || op == Gt || op == LogicalEqual || op == NotEqual || op == Lte || op == Gte
  }

  predicate IsLeaf(a: Ast) {
    a.Num? || a.Ident?
  }

  predicate IsUnsupportedCondition(node: Ast, i: string)
    decreases node
  {
    var invalidInequality := !(node.Node? && node.tag.Binary? && IsComparison(node.tag.op) && |node.children| == 2
                               && IsLeaf(node.children[0]) && IsLeaf(node.children[1]));
    var invalidConcatenation := !(node.Node? && node.tag.Binary?
                                  && (node.tag.op == LogicalOr || node.tag.op == LogicalAnd)
                                  && |node.children| == 2
                                  && node.children[1] != Missing && !IsUnsupportedCondition(node.children[1], i)
                                  && node.children[0] != Missing && !IsUnsupportedCondition(node.children[0], i));
    var invalidNegation := !(node.Node? && node.tag.Unary? && node.tag.op == LogicalNot && |node.children| == 1
                             && node.children[0] != Missing && !IsUnsupportedCondition(node.children[0], i));
    var unknownSymbols := !invalidInequality
                          && ((node.children[0].Ident? && node.children[0].name != i)
                                || (node.children[1].Ident? && node.children[1].name != i));
    (invalidInequality || unknownSymbols) && invalidConcatenation && invalidNegation
  }

  /** The comparison a leaf closure makes: always of the loop value with the number on the right. */
  function LeafTest(op: Op, right: Ast, v: int): Option<bool> {
    if !right.Num? then None  // the source follows a null pointer here
    else match op
      case Lt => Some(v < right.value)
      case Gt => Some(v > right.value)
      case NotEqual => Some(v != right.value)
      case LogicalEqual => Some(v == right.value)
      case Lte => Some(v <= right.value)
      case Gte => Some(v >= right.value)
      case _ => Some(false)
  }

  type Test = int -> Option<bool>

  /** The closure testing the loop condition, or None if it is not supported. */
  function ResolveCondition(node: Ast, i: string): Option<Test>
    decreases node
  {
    if IsUnsupportedCondition(node, i) then None
    else match node.tag.op
      case LogicalOr =>
        var left := ResolveCondition(node.children[0], i);
        var right := ResolveCondition(node.children[1], i);
        if left.None? || right.None? then None
        else Some(v => var l := left.value(v); if l == Some(false) then right.value(v) else l)
      case LogicalAnd =>
        var left := ResolveCondition(node.children[0], i);
        var right := ResolveCondition(node.children[1], i);
        if left.None? || right.None? then None
        else Some(v => var l := left.value(v); if l == Some(true) then right.value(v) else l)
      case LogicalNot =>
        var inner := ResolveCondition(node.children[0], i);
        if inner.None? then None
        else Some(v => var b := inner.value(v); if b.None? then None else Some(!b.value))
      case op => Some(v => LeafTest(op, node.children[1], v))
  }

  /** Conditions built from VAR op NUM. */
  predicate GoodCondition(node: Ast, i: string)
    decreases node
  {
    && node.Node?
    && match node.tag
       case Binary(op) =>
         && |node.children| == 2
         && if op == LogicalOr || op == LogicalAnd then
              GoodCondition(node.children[0], i) && GoodCondition(node.children[1], i)
            else IsComparison(op) && node.children[0] == Ident(i) && node.children[1].Num?
       case Unary(op) => op == LogicalNot && |node.children| == 1 && GoodCondition(node.children[0], i)
       case _ => false
  }

  ghost predicate ConditionRight(node: Ast, i: string, s: State) {
    && ResolveCondition(node, i).Some? && Eval(node, s).Some?
    && ResolveCondition(node, i).value(Look(s, Scalar(i))) == Some(Eval(node, s).value != 0)
  }

  lemma {:induction false} JunctionAgrees(op: Op, left: Ast, right: Ast, i: string, s: State)
    requires op == LogicalOr || op == LogicalAnd
    requires left != Missing && right != Missing && ConditionRight(left, i, s) && ConditionRight(right, i, s)
    ensures ConditionRight(Node(Binary(op), [left, right]), i, s)
  {
    var node := Node(Binary(op), [left, right]);
    assert node.children[0] == left && node.children[1] == right;
    assert !IsUnsupportedCondition(node, i);
  }

  lemma {:induction false} NegationAgrees(inner: Ast, i: string, s: State)
    requires inner != Missing && ConditionRight(inner, i, s)
    ensures ConditionRight(Node(Unary(LogicalNot), [inner]), i, s)
  {
    var node := Node(Unary(LogicalNot), [inner]);
    assert node.children[0] == inner;
    assert !IsUnsupportedCondition(node, i);
  }

  /** The closure of a good condition agrees with evaluating the condition. */
  lemma {:induction false} ConditionAgrees(node: Ast, i: string, s: State)
    requires GoodCondition(node, i)
    ensures ConditionRight(node, i, s)
    decreases node
  {
    var cs := node.children;
    match node.tag {
      case Binary(op) =>
        if op == LogicalOr || op == LogicalAnd {
          ConditionAgrees(cs[0], i, s);
          ConditionAgrees(cs[1], i, s);
          JunctionAgrees(op, cs[0], cs[1], i, s);
          assert cs == [cs[0], cs[1]];
        }
      case Unary(_) =>
        ConditionAgrees(cs[0], i, s);
        NegationAgrees(cs[0], i, s);
        assert cs == [cs[0]];
    }
  }

  /**
   * The condition as its closure reads it: the loop variable is compared whatever stands on the left, a
   * right operand that is not a number has no value, and a junction looks at its right part only if it must.
   */
  function AsRead(node: Ast, i: string): Ast
    decreases node
  {
    match node
    case Node(tag, cs) =>
      if tag.Binary? && |cs| == 2 then
        if tag.op == LogicalOr then Node(Ternary, [AsRead(cs[0], i), Num(1), AsRead(cs[1], i)])
        else if tag.op == LogicalAnd then Node(Ternary, [AsRead(cs[0], i), AsRead(cs[1], i), Num(0)])
        else Node(tag, [Ident(i), if cs[1].Num? then cs[1] else Missing])
      else if tag.Unary? && |cs| == 1 then Node(tag, [AsRead(cs[0], i)])
      else Missing
    case _ => Missing
  }

  function Verdict(v: Option<int>): Option<bool> {
    if v.None? then None else Some(v.value != 0)
  }

  lemma {:induction false} EvalJunction(op: Op, left: Ast, right: Ast, i: string, s: State)
    requires op == LogicalOr || op == LogicalAnd
    ensures var l, r := Verdict(Eval(AsRead(left, i), s)), Verdict(Eval(AsRead(right, i), s));
      Verdict(Eval(AsRead(Node(Binary(op), [left, right]), i), s)) == if l == Some(op == LogicalAnd) then r else l
  {
    var node := Node(Binary(op), [left, right]);
    assert node.children[0] == left && node.children[1] == right;
    var read := AsRead(node, i);
    assert read.children[0] == AsRead(left, i);
    assert op == LogicalOr ==> read.children[1] == Num(1) && read.children[2] == AsRead(right, i);
    assert op == LogicalAnd ==> read.children[1] == AsRead(right, i) && read.children[2] == Num(0);
  }

  lemma {:induction false} EvalNegation(inner: Ast, i: string, s: State)
    ensures var b := Verdict(Eval(AsRead(inner, i), s));
      Verdict(Eval(AsRead(Node(Unary(LogicalNot), [inner]), i), s)) == if b.None? then None else Some(!b.value)
  {
    var node := Node(Unary(LogicalNot), [inner]);
    assert node.children[0] == inner;
    assert AsRead(node, i).children[0] == AsRead(inner, i);
  }

  lemma {:induction false} EvalLeafRead(op: Op, left: Ast, right: Ast, i: string, s: State)
    requires IsComparison(op)
    ensures Verdict(Eval(AsRead(Node(Binary(op), [left, right]), i), s)) == LeafTest(op, right, Look(s, Scalar(i)))
  {
    var node := Node(Binary(op), [left, right]);
    assert node.children[1] == right;
    var read := AsRead(node, i);
    assert read.children[0] == Ident(i) && read.children[1] == if right.Num? then right else Missing;
  }

  /** The shapes the check accepts, and what their parts are. */
  lemma {:induction false} AcceptedShapes(node: Ast, i: string)
    requires !IsUnsupportedCondition(node, i)
    ensures node.Node? && (node.tag.Binary? || node.tag == Unary(LogicalNot))
    ensures |node.children| == if node.tag.Binary? then 2 else 1
    ensures node.tag.Binary? ==> node.tag.op == LogicalOr || node.tag.op == LogicalAnd || IsComparison(node.tag.op)
    ensures node.tag.Unary? || node.tag.op == LogicalOr || node.tag.op == LogicalAnd ==>
      forall k :: 0 <= k < |node.children| ==> !IsUnsupportedCondition(node.children[k], i)
  {
  }

  /** In state s the closure of the condition says what evaluating its reading says. */
  ghost predicate SaysAsRead(node: Ast, i: string, s: State) {
    && ResolveCondition(node, i).Some?
    && ResolveCondition(node, i).value(Look(s, Scalar(i))) == Verdict(Eval(AsRead(node, i), s))
  }

  lemma {:induction false} JunctionSays(op: Op, left: Ast, right: Ast, i: string, s: State)
    requires op == LogicalOr || op == LogicalAnd
    requires !IsUnsupportedCondition(Node(Binary(op), [left, right]), i)
    requires SaysAsRead(left, i, s) && SaysAsRead(right, i, s)
    ensures SaysAsRead(Node(Binary(op), [left, right]), i, s)
  {
    var node := Node(Binary(op), [left, right]);
    assert node.children[0] == left && node.children[1] == right;
    EvalJunction(op, left, right, i, s);
  }

  lemma {:induction false} NegationSays(inner: Ast, i: string, s: State)
    requires !IsUnsupportedCondition(Node(Unary(LogicalNot), [inner]), i) && SaysAsRead(inner, i, s)
    ensures SaysAsRead(Node(Unary(LogicalNot), [inner]), i, s)
  {
    var node := Node(Unary(LogicalNot), [inner]);
    assert node.children[0] == inner;
    EvalNegation(inner, i, s);
  }

  lemma {:induction false} LeafSays(op: Op, left: Ast, right: Ast, i: string, s: State)
    requires IsComparison(op) && !IsUnsupportedCondition(Node(Binary(op), [left, right]), i)
    ensures SaysAsRead(Node(Binary(op), [left, right]), i, s)
  {
    var node := Node(Binary(op), [left, right]);
    assert node.children[1] == right;
    EvalLeafRead(op, left, right, i, s);
  }

  /** So does the closure of every accepted condition, in every state. */
  lemma {:induction false} ClosureIsReading(node: Ast, i: string, s: State)
    requires !IsUnsupportedCondition(node, i)
    ensures SaysAsRead(node, i, s)
    decreases node
  {
    AcceptedShapes(node, i);
    var tag, cs := node.tag, node.children;
    if tag.Unary? {
      assert cs == [cs[0]];
      ClosureIsReading(cs[0], i, s);
      NegationSays(cs[0], i, s);
    } else {
      assert cs == [cs[0], cs[1]];
      if tag.op == LogicalOr || tag.op == LogicalAnd {
        ClosureIsReading(cs[0], i, s);
        ClosureIsReading(cs[1], i, s);
        JunctionSays(tag.op, cs[0], cs[1], i, s);
      } else {
        LeafSays(tag.op, cs[0], cs[1], i, s);
      }
    }
  }

  /** In state s a condition has a value, and its reading has the same truth value. */
  ghost predicate ReadRight(node: Ast, i: string, s: State) {
    Eval(node, s).Some? && Verdict(Eval(AsRead(node, i), s)) == Verdict(Eval(node, s))
  }

  /** The closure of an accepted condition is right in a state exactly if the reading is. */
  lemma {:induction false} ConditionExact(node: Ast, i: string, s: State)
    requires !IsUnsupportedCondition(node, i)
    ensures ConditionRight(node, i, s) <==> ReadRight(node, i, s)
  {
    ClosureIsReading(node, i, s);
  }

  /** Conditions that are accepted and read as they are meant in every state. */
  ghost predicate RightCondition(node: Ast, i: string) {
    !IsUnsupportedCondition(node, i) && forall s: State :: ReadRight(node, i, s)
  }

  /** Those built from VAR op NUM are. */
  lemma {:induction false} GoodIsRight(node: Ast, i: string)
    requires GoodCondition(node, i)
    ensures RightCondition(node, i)
  {
    forall s: State
      ensures !IsUnsupportedCondition(node, i) && ReadRight(node, i, s)
    {
      ConditionAgrees(node, i, s);
      ConditionExact(node, i, s);
    }
    ConditionAgrees(node, i, State(map[], map[]));
  }

  /** VAR op NUM is, for each comparison. */
  lemma {:induction false} UsualCondition(op: Op, k: int, i: string)
    requires op == Lt || op == Gt || op == Lte || op == Gte || op == LogicalEqual || op == NotEqual
    ensures RightCondition(Node(Binary(op), [Ident(i), Num(k)]), i)
  {
    GoodIsRight(Node(Binary(op), [Ident(i), Num(k)]), i);
  }

  function CompareNums(op: Op, x: int, y: int): Ast {
    Node(Binary(op), [Num(x), Num(y)])
  }

  lemma {:induction false} CompareNumsAccepted(op: Op, x: int, y: int, i: string)
    requires IsComparison(op)
    ensures !IsUnsupportedCondition(CompareNums(op, x, y), i)
  {
  }

  /** A value on which a constant comparison and the closure made for it differ. */
  lemma {:induction false} ConstantComparisonDiffers(op: Op, k: int, m: int) returns (v: int)
    requires IsComparison(op)
    ensures LeafTest(op, Num(m), v) != Some(Apply(op, k, m).value != 0)
  {
    if op == LogicalEqual || op == NotEqual {
      v := if k == m then m + 1 else m;
    } else if op == Lt || op == Gte {
      v := if k < m then m else m - 1;
    } else {
      v := if k > m then m else m + 1;
    }
  }

  ghost predicate LeafAgrees(op: Op, a: Ast, b: Ast, i: string, s: State) {
    Eval(Node(Binary(op), [a, b]), s).Some?
    && LeafTest(op, b, Look(s, Scalar(i))) == Some(Eval(Node(Binary(op), [a, b]), s).value != 0)
  }

  lemma {:induction false} EvalComparison(op: Op, a: Ast, b: Ast, s: State)
    requires IsComparison(op) && IsLeaf(a) && IsLeaf(b)
    ensures Eval(Node(Binary(op), [a, b]), s) == Apply(op, Eval(a, s).value, Eval(b, s).value)
  {
    var e := Node(Binary(op), [a, b]);
    assert e.children[0] == a && e.children[1] == b;
  }

  /** So is i < 5 && 1 < 10, whose constant part is read as i < 10. */
  lemma {:induction false} ConstantPartRight() returns (node: Ast)
    ensures RightCondition(node, "i") && !GoodCondition(node, "i")
  {
    var left, right := Node(Binary(Lt), [Ident("i"), Num(5)]), CompareNums(Lt, 1, 10);
    node := Node(Binary(LogicalAnd), [left, right]);
    assert node.children[0] == left && node.children[1] == right;
    assert !IsUnsupportedCondition(left, "i");
    CompareNumsAccepted(Lt, 1, 10, "i");
    assert !GoodCondition(right, "i");
    forall s: State
      ensures ReadRight(node, "i", s)
    {
      EvalJunction(LogicalAnd, left, right, "i", s);
      EvalLeafRead(Lt, Ident("i"), Num(5), "i", s);
      EvalLeafRead(Lt, Num(1), Num(10), "i", s);
      EvalComparison(Lt, Ident("i"), Num(5), s);
      EvalComparison(Lt, Num(1), Num(10), s);
    }
  }

  /** But 1 < 10 alone is not: it always holds, and its closure says no when the loop variable is 10. */
  lemma {:induction false} ConstantConditionWrong() returns (node: Ast, s: State)
    ensures !IsUnsupportedCondition(node, "i") && forall t: State :: Eval(node, t) == Some(1)
    ensures ResolveCondition(node, "i").Some? && !RightCondition(node, "i")
    ensures ResolveCondition(node, "i").value(Look(s, Scalar("i"))) == Some(false)
  {
    node, s := CompareNums(Lt, 1, 10), State(map[Scalar("i") := 10], map[]);
    CompareNumsAccepted(Lt, 1, 10, "i");
    forall t: State
      ensures Eval(node, t) == Some(1)
    {
      EvalComparison(Lt, Num(1), Num(10), t);
    }
    assert Look(s, Scalar("i")) == 10;
    EvalLeafRead(Lt, Num(1), Num(10), "i", s);
    ClosureIsReading(node, "i", s);
    assert !ReadRight(node, "i", s);
  }

  /** Among the comparisons the unroller accepts, its closure is right for every state exactly on VAR op NUM. */
  lemma {:induction false} LeafConditionExact(op: Op, a: Ast, b: Ast, i: string)
    requires IsComparison(op) && IsLeaf(a) && IsLeaf(b) && !IsUnsupportedCondition(Node(Binary(op), [a, b]), i)
    ensures (forall s: State :: LeafAgrees(op, a, b, i, s)) <==> a == Ident(i) && b.Num?
  {
    var s0 := State(map[], map[]);
    if a.Num? && b.Num? {
      var v := ConstantComparisonDiffers(op, a.value, b.value);
      var s := Write(s0, Scalar(i), v);
      EvalComparison(op, a, b, s);
      assert !LeafAgrees(op, a, b, i, s);
    } else if !b.Num? {
      assert !LeafAgrees(op, a, b, i, s0);
    } else {
      assert a == Ident(i);
      forall s: State
        ensures LeafAgrees(op, a, b, i, s)
      {
        EvalComparison(op, a, b, s);
      }
    }
  }

  // ----- steps -----

  predicate IsArithmetic(op: Op) {
    op == Add || op == Sub || op == Mul || op == Div
  }

  /** The check of the source; its test of the right operand looks at the left one again. */
  predicate IsUnsupportedPost(node: Ast, i: string)
    decreases node
  {
    !(node.Node? && node.tag.Binary? && IsArithmetic(node.tag.op) && |node.children| == 2
      && node.children[1] != Missing
      && (node.children[1] == Ident(i) || node.children[1].Num? || !IsUnsupportedPost(node.children[0], i))
      && node.children[0] != Missing
      && (node.children[0] == Ident(i) || node.children[0].Num? || !IsUnsupportedPost(node.children[0], i)))
  }

  /** The loop variable or a number. */
  predicate IsSimple(a: Ast, i: string) {
    a == Ident(i) || a.Num?
  }

  /** n steps down the left operands there are sums, products and the like all the way, the last of them simple. */
  predicate SimpleAfter(node: Ast, i: string, n: nat)
    decreases n
  {
    && node.Node? && node.tag.Binary? && |node.children| == 2
    && (node.tag.op == Add || node.tag.op == Sub || node.tag.op == Mul || node.tag.op == Div)
    && node.children[0] != Missing && node.children[1] != Missing
    && if n == 0 then IsSimple(node.children[0], i) && IsSimple(node.children[1], i)
       else SimpleAfter(node.children[0], i, n - 1)
  }

  ghost predicate EndsSimple(node: Ast, i: string) {
    exists n: nat :: SimpleAfter(node, i, n)
  }

  lemma {:induction false} AcceptedIsSimple(node: Ast, i: string) returns (n: nat)
    requires !IsUnsupportedPost(node, i)
    ensures SimpleAfter(node, i, n)
    decreases node
  {
    if IsSimple(node.children[0], i) && IsSimple(node.children[1], i) {
      n := 0;
    } else {
      n := AcceptedIsSimple(node.children[0], i);
      n := n + 1;
    }
  }

  lemma {:induction false} SimpleIsAccepted(node: Ast, i: string, n: nat)
    requires SimpleAfter(node, i, n)
    ensures !IsUnsupportedPost(node, i)
    decreases n
  {
    if n > 0 {
      SimpleIsAccepted(node.children[0], i, n - 1);
    }
  }

  /** The steps accepted: nothing is asked of the right operands but at the lower end. */
  lemma {:induction false} PostAcceptedExact(node: Ast, i: string)
    ensures !IsUnsupportedPost(node, i) <==> EndsSimple(node, i)
  {
    if !IsUnsupportedPost(node, i) {
      var n := AcceptedIsSimple(node, i);
    } else if n: nat :| SimpleAfter(node, i, n) {
      SimpleIsAccepted(node, i, n);
    }
  }

  predicate HasOperands(tag: Tag, cs: seq<Ast>) {
    tag.Binary? && |cs| >= 2 && cs[0] != Missing && cs[1] != Missing
  }

  /** The next value of the loop variable; every identifier is taken to be the loop variable. */
  function StepValue(node: Ast, v: int): Option<int>
    decreases node
  {
    match node
    case Num(k) => Some(k)
    case Ident(_) => Some(v)
    case Missing => None
    case Node(tag, cs) =>
      if !HasOperands(tag, cs) then None  // the source follows a null pointer or reads behind the children here
      else if !IsArithmetic(tag.op) then Some(0)
      else
        var x, y := StepValue(cs[0], v), StepValue(cs[1], v);
        if x.None? || y.None? then None else Apply(tag.op, x.value, y.value)
  }

  type Step = int -> Option<int>

  function ResolvePostCondition(assignment: Ast, i: string): Option<Step> {
    if assignment.Node? && assignment.tag.Blocking? && |assignment.children| == 2
       && assignment.children[0] != Missing && assignment.children[1] != Missing
       && !IsUnsupportedPost(assignment.children[1], i)
    then Some(v => StepValue(assignment.children[1], v))
    else None
  }

  /** What the closure makes of a step: operations it does not know count as 0. */
  function Understood(node: Ast): Ast
    decreases node
  {
    match node
    case Node(tag, cs) =>
      if !HasOperands(tag, cs) then Missing
      else if !IsArithmetic(tag.op) then Num(0)
      else Node(tag, [Understood(cs[0]), Understood(cs[1])])
    case _ => node
  }

  function Names(node: Ast): set<string>
    decreases node
  {
    match node
    case Ident(x) => {x}
    case Node(_, cs) => set k, x | 0 <= k < |cs| && x in Names(cs[k]) :: x
    case _ => {}
  }

  /** The state in which the loop variable and every name of the step hold v. */
  function Level(node: Ast, i: string, v: int): (s: State)
    ensures forall x :: x in Names(node) || x == i ==> Look(s, Scalar(x)) == v
  {
    State(map x | x in Names(node) + {i} :: Scalar(x) := v, map[])
  }

  /** Where all names hold v, the closure evaluates what it understands of the step. */
  lemma {:induction false} StepValueIsEval(node: Ast, v: int, s: State)
    requires forall x :: x in Names(node) ==> Look(s, Scalar(x)) == v
    ensures StepValue(node, v) == Eval(Understood(node), s)
    decreases node
  {
    if node.Node? && HasOperands(node.tag, node.children) && IsArithmetic(node.tag.op) {
      var cs := node.children;
      assert Names(cs[0]) <= Names(node) && Names(cs[1]) <= Names(node);
      StepValueIsEval(cs[0], v, s);
      StepValueIsEval(cs[1], v, s);
    }
  }

  /** The value of the expression is the same in all states that agree on i. */
  ghost predicate DependsOnlyOn(node: Ast, i: string) {
    forall s: State, t: State :: Look(s, Scalar(i)) == Look(t, Scalar(i)) ==> Eval(node, s) == Eval(node, t)
  }

  /** Counting the operations the closure does not know as 0 makes no difference. */
  ghost predicate UnknownMakeNoDifference(node: Ast, i: string) {
    forall v: int :: Eval(Understood(node), Level(node, i, v)) == Eval(node, Level(node, i, v))
  }

  ghost predicate GoodStep(node: Ast, i: string) {
    DependsOnlyOn(node, i) && UnknownMakeNoDifference(node, i)
  }

  /** VAR + NUM, VAR - NUM, VAR * NUM and VAR / NUM are accepted and computed right. */
  lemma {:induction false} UsualStep(op: Op, k: int, i: string)
    requires op == Add || op == Sub || op == Mul || op == Div
    ensures var step := Node(Binary(op), [Ident(i), Num(k)]); !IsUnsupportedPost(step, i) && GoodStep(step, i)
  {
    var a, b := Ident(i), Num(k);
    var step := Node(Binary(op), [a, b]);
    assert step.children[0] == a && step.children[1] == b;
    assert SimpleAfter(step, i, 0);
    PostAcceptedExact(step, i);
    assert Understood(step) == step;
    forall s: State, t: State | Look(s, Scalar(i)) == Look(t, Scalar(i))
      ensures Eval(step, s) == Eval(step, t)
    {
      assert Eval(a, s) == Eval(a, t) && Eval(b, s) == Eval(b, t);
    }
  }

  lemma {:induction false} StepAgrees(node: Ast, i: string, s: State)
    requires GoodStep(node, i)
    ensures StepValue(node, Look(s, Scalar(i))) == Eval(node, s)
  {
    var v := Look(s, Scalar(i));
    var level := Level(node, i, v);
    StepValueIsEval(node, v, level);
    assert Look(level, Scalar(i)) == v;
  }

  /** The closure of a step is right for every state exactly for the good steps. */
  lemma {:induction false} StepExact(node: Ast, i: string)
    ensures (forall s: State :: StepValue(node, Look(s, Scalar(i))) == Eval(node, s)) <==> GoodStep(node, i)
  {
    if forall s: State :: StepValue(node, Look(s, Scalar(i))) == Eval(node, s) {
      forall v: int
        ensures Eval(Understood(node), Level(node, i, v)) == Eval(node, Level(node, i, v))
      {
        StepValueIsEval(node, v, Level(node, i, v));
        assert StepValue(node, Look(Level(node, i, v), Scalar(i))) == Eval(node, Level(node, i, v));
      }
    }
    if GoodStep(node, i) {
      forall s: State
        ensures StepValue(node, Look(s, Scalar(i))) == Eval(node, s)
      {
        StepAgrees(node, i, s);
      }
    }
  }

  /** Sums, differences, products and quotients of numbers and names. */
  predicate IsArithmeticTree(node: Ast)
    decreases node
  {
    match node
    case Num(_) => true
    case Ident(_) => true
    case Missing => false
    case Node(tag, cs) =>
      tag.Binary? && IsArithmetic(tag.op) && |cs| == 2 && IsArithmeticTree(cs[0]) && IsArithmeticTree(cs[1])
  }

  lemma {:induction false} ArithmeticUnderstood(node: Ast)
    requires IsArithmeticTree(node)
    ensures Understood(node) == node
    decreases node
  {
    if node.Node? {
      ArithmeticUnderstood(node.children[0]);
      ArithmeticUnderstood(node.children[1]);
      assert node.children == [node.children[0], node.children[1]];
    }
  }

  /** A step made of arithmetic alone is computed right exactly when no other variable matters to it. */
  lemma {:induction false} ArithmeticStepExact(node: Ast, i: string)
    requires IsArithmeticTree(node)
    ensures (forall s: State :: StepValue(node, Look(s, Scalar(i))) == Eval(node, s)) <==> DependsOnlyOn(node, i)
  {
    ArithmeticUnderstood(node);
    StepExact(node, i);
  }

  /** In particular a step that names no other variable is good. */
  lemma {:induction false} NamesSuffice(node: Ast, i: string)
    requires IsArithmeticTree(node) && Names(node) <= {i}
    ensures GoodStep(node, i)
  {
    ArithmeticUnderstood(node);
    forall s: State
      ensures StepValue(node, Look(s, Scalar(i))) == Eval(node, s)
    {
      StepValueIsEval(node, Look(s, Scalar(i)), s);
    }
    StepExact(node, i);
  }

  /** The check lets another variable through, and then the closure computes something else. */
  lemma {:induction false} PostAcceptsOtherVariable() returns (node: Ast, s: State)
    ensures !IsUnsupportedPost(node, "i") && StepValue(node, Look(s, Scalar("i"))) != Eval(node, s)
  {
    node := Node(Binary(Add), [Node(Binary(Add), [Ident("i"), Num(1)]), Ident("j")]);
    assert !IsUnsupportedPost(node.children[0], "i");
    s := State(map[Scalar("j") := 5], map[]);
    assert Eval(node.children[0], s) == Some(1);
  }

  /** It lets operations through that the closure counts as 0, or that make it read an operand that is not there. */
  lemma {:induction false} PostAcceptsUnknownOperation() returns (zero: Ast, failing: Ast, s: State)
    ensures !IsUnsupportedPost(zero, "i") && !IsUnsupportedPost(failing, "i")
    ensures StepValue(zero, Look(s, Scalar("i"))) == Some(1) && Eval(zero, s) == Some(2)
    ensures StepValue(failing, Look(s, Scalar("i"))) == None && Eval(failing, s) == Some(1)
  {
    var next := Node(Binary(Add), [Ident("i"), Num(1)]);
    var less, minus := Node(Binary(Lt), [Ident("i"), Num(3)]), Node(Unary(Sub), [Ident("i")]);
    assert !IsUnsupportedPost(next, "i");
    zero, failing := Node(Binary(Add), [next, less]), Node(Binary(Add), [next, minus]);
    s := State(map[], map[]);
    assert Eval(next, s) == Some(1) && StepValue(next, 0) == Some(1);
    assert Eval(less, s) == Some(1) && Eval(minus, s) == Some(0);
    assert zero.children == [next, less] && failing.children == [next, minus];
  }

  /** And it turns away a step over the loop variable alone when the right operand is compound. */
  lemma {:induction false} PostRejectsGoodStep() returns (node: Ast)
    ensures IsUnsupportedPost(node, "i") && GoodStep(node, "i") && node.Node?
  {
    var right := Node(Binary(Mul), [Ident("i"), Num(2)]);
    node := Node(Binary(Add), [Num(1), right]);
    assert IsUnsupportedPost(node.children[0], "i");
    assert Names(right.children[0]) == {"i"} && Names(right.children[1]) == {};
    assert Names(node.children[0]) == {} && Names(node.children[1]) == Names(right);
    NamesSuffice(node, "i");
  }
}
