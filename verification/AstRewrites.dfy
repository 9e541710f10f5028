/** Rewriting products, quotients and powers by constants while the tree is built. */
module AstRewrites {
  import opened Wrappers
  import opened Bits
  import opened VerilogAst

  /** Where a rewritten product or quotient hands its number over. */
  datatype Flag = MultiplyRight | MultiplyLeft | DivideRight

  predicate IsOperation(a: Ast, op: Op) {
    a.Node? && a.tag == Binary(op) && |a.children| == 2
  }

  lemma {:induction false} Pow2Injective(j: nat, k: nat)
    requires Pow2(j) == Pow2(k)
    ensures j == k
  {
    if j > 0 && k > 0 {
      Pow2Injective(j - 1, k - 1);
    }
  }

  /** The number is 2 to the k for some k of at least 1. */
  ghost predicate IsPowerOfTwo(number: int, k: nat) {
    k >= 1 && number == Pow2(k)
  }

  lemma {:induction false} Twice(x: int, y: int)
    ensures x * (2 * y) == 2 * (x * y)
  {
  }

  lemma {:induction false} OddFactor(odd: int, power: nat, k: nat)
    requires odd % 2 == 1 && odd > 1
    ensures odd * Pow2(power) != Pow2(k)
    decreases power
  {
    if power > 0 && k > 0 {
      OddFactor(odd, power - 1, k - 1);
      Twice(odd, Pow2(power - 1));
    } else if power > 0 {
      assert odd * Pow2(power) >= 2 * Pow2(power);
    }
  }

  lemma {:induction false} OddIsNoPower(number: int, odd: int, power: nat)
    requires odd % 2 == 1 && odd > 1 && number == odd * Pow2(power)
    ensures forall k: nat :: !IsPowerOfTwo(number, k)
  {
    forall k: nat
      ensures !IsPowerOfTwo(number, k)
    {
      if IsPowerOfTwo(number, k) {
        OddFactor(odd, power, k);
      }
    }
  }

  // ----- powers of constants -----

  lemma {:induction false} PowNotZero(x: int, n: nat)
    requires x != 0
    ensures Pow(x, n) != 0
  {
    if n > 0 {
      PowNotZero(x, n - 1);
    }
  }

  /** x to the n over the real numbers. */
  function RealPower(x: int, n: int): real
    requires x != 0 || n >= 0
  {
    if n >= 0 then Pow(x, n) as real
    else
      PowNotZero(x, -n);
      1.0 / Pow(x, -n) as real
  }

  /** Conversion to an integer drops the fraction. */
  function Truncated(x: real): int {
    if x >= 0.0 then x.Floor else -(-x).Floor
  }

  function Folded(x: int, n: int): int
    requires x != 0 || n >= 0
  {
    Truncated(RealPower(x, n))
  }

  lemma {:induction false} PowOfUnit(x: int, n: nat)
    requires x == 1 || x == -1
    ensures Pow(x, n) == if x == 1 || n % 2 == 0 then 1 else -1
  {
    if n > 0 {
      PowOfUnit(x, n - 1);
    }
  }

  lemma {:induction false} TimesAtLeast(x: nat, y: nat) returns (p: nat)
    requires x >= 2 && y >= 2
    ensures p == x * y >= 2
  {
    p := x * y;
    assert p == (x - 1) * y + y;
    assert (x - 1) * y >= 0;
  }

  lemma {:induction false} SignsOut(x: int, y: int)
    ensures Abs(x) * Abs(y) == x * y || Abs(x) * Abs(y) == -(x * y)
  {
  }

  lemma {:induction false} LargeProduct(x: int, y: int)
    requires (x >= 2 || x <= -2) && (y >= 2 || y <= -2)
    ensures x * y >= 2 || x * y <= -2
  {
    var p := TimesAtLeast(Abs(x), Abs(y));
    SignsOut(x, y);
  }

  lemma {:induction false} PowIsLarge(x: int, n: nat)
    requires (x >= 2 || x <= -2) && n >= 1
    ensures Pow(x, n) >= 2 || Pow(x, n) <= -2
  {
    if n > 1 {
      PowIsLarge(x, n - 1);
      LargeProduct(x, Pow(x, n - 1));
    } else {
      assert Pow(x, 1) == x * Pow(x, 0);
    }
  }

  lemma {:induction false} ScaleLess(x: real, y: real, r: real)
    requires r > 0.0
    ensures x < y <==> x * r < y * r
  {
  }

  lemma {:induction false} InverseBetween(x: real, r: real)
    requires r >= 2.0 && x * r == 1.0
    ensures 0.0 < x < 1.0
  {
    ScaleLess(0.0, x, r);
    ScaleLess(x, 1.0, r);
  }

  lemma {:induction false} SmallInverse(p: int)
    requires p >= 2 || p <= -2
    ensures Truncated(1.0 / p as real) == 0
  {
    var r := p as real;
    assert (1.0 / r) * r == 1.0;
    if p >= 2 {
      InverseBetween(1.0 / r, r);
    } else {
      InverseBetween(-(1.0 / r), -r);
    }
  }

  lemma {:induction false} UnitInverse(p: int)
    requires p == 1 || p == -1
    ensures Truncated(1.0 / p as real) == p
  {
  }

  lemma {:induction false} WholeTruncated(p: int)
    ensures Truncated(p as real) == p
  {
  }

  lemma {:induction false} UnitFolded(x: int, n: int)
    requires n < 0 && (x == 1 || x == -1)
    ensures Folded(x, n) == if x == 1 || n % 2 == 0 then 1 else -1
  {
    PowOfUnit(x, -n);
    UnitInverse(Pow(x, -n));
    assert n % 2 == (-n) % 2;
  }

  lemma {:induction false} LargeFolded(x: int, n: int)
    requires n < 0 && (x >= 2 || x <= -2)
    ensures Folded(x, n) == 0
  {
    PowIsLarge(x, -n);
    SmallInverse(Pow(x, -n));
  }

  /** Raising in the real numbers and dropping the fraction is what the standard prescribes. */
  lemma {:induction false} FoldIsRaise(x: int, n: int)
    requires x != 0 || n >= 0
    ensures Raise(x, n) == Some(Folded(x, n))
  {
    if n >= 0 {
      WholeTruncated(Pow(x, n));
    } else if x == 1 || x == -1 {
      UnitFolded(x, n);
    } else {
      LargeFolded(x, n);
    }
  }

  // ----- what is rewritten -----

  function Products(base: Ast, n: nat): Ast
    requires n >= 1
  {
    if n == 1 then base else Node(Binary(Mul), [base, Products(base, n - 1)])
  }

  function Expanded(base: Ast, n: int): Ast {
    if n == 0 then Num(1) else if n < 0 then base else Products(base, n)
  }

  /** x * 2^k or 2^k * x, with k at least 1. */
  ghost predicate IsProduct(a: Ast, x: string, k: nat) {
    k >= 1 && (a == Node(Binary(Mul), [Ident(x), Num(Pow2(k))]) || a == Node(Binary(Mul), [Num(Pow2(k)), Ident(x)]))
  }

  ghost predicate IsQuotient(a: Ast, x: string, k: nat) {
    k >= 1 && a == Node(Binary(Div), [Ident(x), Num(Pow2(k))])
  }

  ghost predicate IsPower(a: Ast, base: Ast, n: int) {
    !base.Num? && a == Node(Binary(Power), [base, Num(n)])
  }

  ghost predicate IsConstantPower(a: Ast, x: int, n: int) {
    a == Node(Binary(Power), [Num(x), Num(n)])
  }

  lemma {:induction false} ProductForms(a: Ast, left: Ast, right: Ast)
    requires a.Node? && a.children == [left, right]
    ensures a.tag == Binary(Mul) && left.Ident? && right.Num? ==> forall k: nat :: IsPowerOfTwo(right.value, k) ==>
      IsProduct(a, left.name, k)
    ensures a.tag == Binary(Mul) && left.Num? && right.Ident? ==> forall k: nat :: IsPowerOfTwo(left.value, k) ==>
      IsProduct(a, right.name, k)
    ensures a.tag == Binary(Div) && left.Ident? && right.Num? ==> forall k: nat :: IsPowerOfTwo(right.value, k) ==>
      IsQuotient(a, left.name, k)
  {
  }

  function Shifted(op: Op, x: string, k: nat): Ast {
    Node(Binary(op), [Ident(x), Num(k)])
  }

  ghost predicate Rewritable(a: Ast) {
    (exists x, k :: IsProduct(a, x, k) || IsQuotient(a, x, k)) || (exists base, n :: IsPower(a, base, n))
    || (exists x, n :: IsConstantPower(a, x, n))
  }

  /** Products and quotients by powers of two become shifts, powers become products, nothing else changes. */
  ghost predicate Rewritten(was: Ast, now: Ast) {
    && (forall x, k :: IsProduct(was, x, k) ==> now == Shifted(ShiftLeft, x, k))
    && (forall x, k :: IsQuotient(was, x, k) ==> now == Shifted(ShiftRight, x, k))
    && (forall base, n :: IsPower(was, base, n) ==> now == Expanded(base, n))
    && (forall x, n :: IsConstantPower(was, x, n) ==> Raise(x, n).Some? && now == Num(Raise(x, n).value))
    && (!Rewritable(was) ==> now == was)
  }

  /** The shifts spelt out; anything but a number leaves a product alone. */
  lemma {:induction false} ShiftForms(x: string, k: nat, other: Ast, now: Ast)
    requires k >= 1 && !other.Num?
    ensures Rewritten(Node(Binary(Mul), [Ident(x), Num(Pow2(k))]), now) ==>
      now == Node(Binary(ShiftLeft), [Ident(x), Num(k)])
    ensures Rewritten(Node(Binary(Mul), [Num(Pow2(k)), Ident(x)]), now) ==>
      now == Node(Binary(ShiftLeft), [Ident(x), Num(k)])
    ensures Rewritten(Node(Binary(Div), [Ident(x), Num(Pow2(k))]), now) ==>
      now == Node(Binary(ShiftRight), [Ident(x), Num(k)])
    ensures Rewritten(Node(Binary(Mul), [Ident(x), other]), now) ==> now == Node(Binary(Mul), [Ident(x), other])
  {
    assert IsProduct(Node(Binary(Mul), [Ident(x), Num(Pow2(k))]), x, k);
    assert IsProduct(Node(Binary(Mul), [Num(Pow2(k)), Ident(x)]), x, k);
    assert IsQuotient(Node(Binary(Div), [Ident(x), Num(Pow2(k))]), x, k);
    assert Node(Binary(Mul), [Ident(x), other]).children[1] == other;
  }

  /** The powers spelt out. */
  lemma {:induction false} PowerForms(base: Ast, n: nat, y: int, now: Ast)
    requires !base.Num?
    ensures Rewritten(Node(Binary(Power), [base, Num(0)]), now) ==> now == Num(1)
    ensures Rewritten(Node(Binary(Power), [base, Num(1)]), now) ==> now == base
    ensures n >= 1 && Rewritten(Node(Binary(Power), [base, Num(n + 1)]), now) ==>
      now == Node(Binary(Mul), [base, Products(base, n)])
    ensures Rewritten(Node(Binary(Power), [Num(y), Num(n)]), now) ==> now == Num(Pow(y, n))
  {
    assert IsPower(Node(Binary(Power), [base, Num(0)]), base, 0);
    assert IsPower(Node(Binary(Power), [base, Num(1)]), base, 1);
    assert IsPower(Node(Binary(Power), [base, Num(n + 1)]), base, n + 1);
    assert IsConstantPower(Node(Binary(Power), [Num(y), Num(n)]), y, n);
  }

  class Slot {
    var node: Ast

    /** Turns a number of the node that is a power of two into a shift amount, and the operation into a shift. */
    method CheckNodeNumber(at: nat, flag: Flag)
      requires node.Node? && |node.children| == 2 && at < 2 && node.children[at].Num?
      requires flag.MultiplyLeft? <==> at == 0
      modifies this
      ensures (forall k: nat :: !IsPowerOfTwo(old(node).children[at].value, k)) ==> node == old(node)
      ensures forall k: nat :: IsPowerOfTwo(old(node).children[at].value, k) ==>
        node == Node(Binary(if flag.DivideRight? then ShiftRight else ShiftLeft), [old(node).children[1 - at], Num(k)])
    {
      var power := 0;
      var number := node.children[at].value;
      if number <= 1 {
        return;
      }
      ghost var original := number;
      while number % 2 == 0 && number > 1
        invariant 1 <= number <= original && power >= 0 && original == number * Pow2(power)
        invariant power == 0 ==> number == original
        decreases number
      {
        assert number * Pow2(power) == (number / 2) * Pow2(power + 1);
        number := number / 2;
        power := power + 1;
      }
      if number == 1 {
        forall k: nat | IsPowerOfTwo(original, k) ensures k == power {
          Pow2Injective(k, power);
        }
        var other := node.children[1 - at];
        node := node.(children := node.children[at := Num(power)]);
        match flag {
          case MultiplyRight => node := node.(tag := Binary(ShiftLeft));
          case MultiplyLeft =>
            var child := node.children[0];
            node := node.(tag := Binary(ShiftLeft));
            node := node.(children := [node.children[1], child]);
          case DivideRight => node := node.(tag := Binary(ShiftRight));
        }
        assert node.children == [other, Num(power)];
        assert IsPowerOfTwo(original, power);
      } else {
        OddIsNoPower(original, number, power);
      }
    }

    /**
     * A constant base is raised at once, and any other makes a tree of products; a negative exponent leaves
     * it alone. Nothing comes of 0 raised to a negative power, where the source converts infinity.
     */
    method ExpandPower() returns (defined: bool)
      requires IsOperation(node, Power) && node.children[1].Num?
      modifies this
      ensures var base, n := old(node).children[0], old(node).children[1].value;
        if base.Num? then
          && (defined <==> Raise(base.value, n).Some?)
          && node == if defined then Num(Raise(base.value, n).value) else old(node)
        else defined && node == Expanded(base, n)
    {
      var base, n := node.children[0], node.children[1].value;
      defined := true;
      if base.Num? {
        if base.value == 0 && n < 0 {
          return false;
        }
        FoldIsRaise(base.value, n);
        node := Num(Folded(base.value, n));
        return;
      }
      var newNode := base;
      if n == 0 {
        newNode := Num(1);
      } else {
        var i := 1;
        while i < n
          invariant i >= 1 && (n >= 1 ==> i <= n) && (n < 1 ==> i == 1)
          invariant newNode == Products(base, i)
        {
          newNode := Node(Binary(Mul), [base, newNode]);
          i := i + 1;
        }
      }
      node := newNode;
    }

    /** Fails on a divisor or an exponent that is not constant, and on 0 raised to a negative power. */
    method CheckBinaryOperation() returns (ok: bool)
      modifies this
      ensures !ok <==>
        || ((IsOperation(old(node), Div) || IsOperation(old(node), Power)) && !old(node).children[1].Num?)
        || exists n :: n < 0 && old(node) == Node(Binary(Power), [Num(0), Num(n)])
      ensures !ok ==> node == old(node)
      ensures ok ==> Rewritten(old(node), node)
    {
      ok := true;
      if !node.Node? || !node.tag.Binary? || |node.children| != 2 {
        return;
      }
      var left, right := node.children[0], node.children[1];
      assert node.children == [left, right];
      if node.tag.op == Mul {
        ProductForms(node, left, right);
        if left.Ident? && right.Num? {
          CheckNodeNumber(1, MultiplyRight);
        }
        if node.children[0].Num? && node.children[1].Ident? {
          CheckNodeNumber(0, MultiplyLeft);
        }
      } else if node.tag.op == Div {
        if !right.Num? {
          return false;
        }
        ProductForms(node, left, right);
        if left.Ident? {
          CheckNodeNumber(1, DivideRight);
        }
      } else if node.tag.op == Power {
        if !right.Num? {
          return false;
        }
        assert if left.Num? then IsConstantPower(node, left.value, right.value) else IsPower(node, left, right.value);
        ok := ExpandPower();
      }
    }
  }

  // ----- values -----

  lemma {:induction false} EvalBinary(op: Op, a: Ast, b: Ast, s: State)
    ensures Eval(Node(Binary(op), [a, b]), s) ==
      if Eval(a, s).Some? && Eval(b, s).Some? then Apply(op, Eval(a, s).value, Eval(b, s).value) else None
  {
    var cs := [a, b];
    assert cs[0] == a && cs[1] == b;
  }

  lemma {:induction false} ProductsPower(base: Ast, n: nat, s: State)
    requires n >= 1
    ensures Eval(Products(base, n), s) == if Eval(base, s).Some? then Some(Pow(Eval(base, s).value, n)) else None
    decreases n
  {
    if n > 1 {
      ProductsPower(base, n - 1, s);
      EvalBinary(Mul, base, Products(base, n - 1), s);
    } else if Eval(base, s).Some? {
      assert Pow(Eval(base, s).value, 1) == Eval(base, s).value * Pow(Eval(base, s).value, 0);
    }
  }

  /**
   * A power expanded to products has the right value exactly when the exponent is not negative or the
   * base is its own inverse.
   */
  lemma {:induction false} ExpandPowerExact(base: Ast, n: int, s: State)
    requires Eval(base, s).Some?
    ensures var b := Eval(base, s).value;
      Eval(Expanded(base, n), s) == Eval(Node(Binary(Power), [base, Num(n)]), s) <==>
        n >= 0 || b == 1 || (b == -1 && n % 2 == 1)
  {
    EvalBinary(Power, base, Num(n), s);
    if n >= 1 {
      ProductsPower(base, n, s);
    }
  }

  /** x ** -1, which is 0 for x = 2, comes out as x. */
  lemma {:induction false} NegativePowerWrong() returns (base: Ast, s: State)
    ensures IsPower(Node(Binary(Power), [base, Num(-1)]), base, -1)
    ensures Eval(Node(Binary(Power), [base, Num(-1)]), s) == Some(0) && Eval(Expanded(base, -1), s) == Some(2)
  {
    base, s := Ident("x"), State(map[Scalar("x") := 2], map[]);
    assert Eval(base, s) == Some(2);
    EvalBinary(Power, base, Num(-1), s);
  }

  lemma {:induction false} ShiftIsQuotient(x: int, k: nat)
    requires x >= 0
    ensures TruncDiv(x, Pow2(k)) == x / Pow2(k)
  {
  }

  lemma {:induction false} ProductToShift(was: Ast, x: string, k: nat, s: State)
    requires IsProduct(was, x, k)
    ensures Eval(Shifted(ShiftLeft, x, k), s) == Eval(was, s)
  {
    EvalBinary(Mul, Ident(x), Num(Pow2(k)), s);
    EvalBinary(Mul, Num(Pow2(k)), Ident(x), s);
    EvalBinary(ShiftLeft, Ident(x), Num(k), s);
    MulCommutes(Look(s, Scalar(x)), Pow2(k));
  }

  lemma {:induction false} QuotientToShift(was: Ast, x: string, k: nat, s: State)
    requires IsQuotient(was, x, k) && Look(s, Scalar(x)) >= 0
    ensures Eval(Shifted(ShiftRight, x, k), s) == Eval(was, s)
  {
    EvalBinary(Div, Ident(x), Num(Pow2(k)), s);
    EvalBinary(ShiftRight, Ident(x), Num(k), s);
    ShiftIsQuotient(Look(s, Scalar(x)), k);
  }

  /** Reading identifiers as unsigned, a rewritten operation has the value it had. */
  lemma {:induction false} RewritePreservesValue(was: Ast, now: Ast, s: State)
    requires Rewritten(was, now)
    requires forall x, k :: IsQuotient(was, x, k) ==> Look(s, Scalar(x)) >= 0
    requires forall base, n :: IsPower(was, base, n) ==> n >= 0 && Eval(base, s).Some?
    ensures Eval(now, s) == Eval(was, s)
  {
    if x: string, k: nat :| IsProduct(was, x, k) {
      ProductToShift(was, x, k, s);
    } else if x: string, k: nat :| IsQuotient(was, x, k) {
      QuotientToShift(was, x, k, s);
    } else if base, n :| IsPower(was, base, n) {
      ExpandPowerExact(base, n, s);
    } else if x: int, n: int :| IsConstantPower(was, x, n) {
      EvalBinary(Power, Num(x), Num(n), s);
    }
  }
}
