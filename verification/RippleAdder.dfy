/** Soft addition and subtraction: one sum and one carry function per bit. */
module RippleAdder {
  import opened Bits

  datatype Net =
    | Gnd
    | Vcc
    | Wire(id: nat)     // a net driven by logic elsewhere
    | Inverted(bit: nat)
    | Carry(bit: nat)
    | Out(bit: nat)

  /** An input pin of the node, by what drives its net. */
  datatype Pin = Undriven | FromGnd | FromVcc | FromLogic(id: nat)

  datatype Op = Xor | Xnor | And | Or | AdderFunc | CarryFunc | Not

  datatype Gate = Gate(op: Op, pins: seq<Net>, out: Net)

  type Wires = Net -> bool

  function Parity(x: bool, y: bool, z: bool): bool {
    (x != y) != z
  }

  function Majority(x: bool, y: bool, z: bool): bool {
    (x && y) || (x && z) || (y && z)
  }

  ghost predicate Holds(g: Gate, w: Wires) {
    match g.op
    case Not => |g.pins| == 1 && w(g.out) == !w(g.pins[0])
    case Xor => |g.pins| == 2 && w(g.out) == (w(g.pins[0]) != w(g.pins[1]))
    case Xnor => |g.pins| == 2 && w(g.out) == (w(g.pins[0]) == w(g.pins[1]))
    case And => |g.pins| == 2 && w(g.out) == (w(g.pins[0]) && w(g.pins[1]))
    case Or => |g.pins| == 2 && w(g.out) == (w(g.pins[0]) || w(g.pins[1]))
    case AdderFunc => |g.pins| == 3 && w(g.out) == Parity(w(g.pins[0]), w(g.pins[1]), w(g.pins[2]))
    case CarryFunc => |g.pins| == 3 && w(g.out) == Majority(w(g.pins[0]), w(g.pins[1]), w(g.pins[2]))
  }

  ghost predicate AllHold(gs: seq<Gate>, w: Wires) {
    !w(Gnd) && w(Vcc) && forall k :: 0 <= k < |gs| ==> Holds(gs[k], w)
  }

  /** An undriven pin reads as 0, which is what is printed for it. */
  ghost function PinValue(p: Pin, w: Wires): bool {
    match p
    case FromLogic(id) => w(Wire(id))
    case _ => p == FromVcc
  }

  ghost function PortValue(port: seq<Pin>, w: Wires): nat {
    Val(seq(|port|, k requires 0 <= k < |port| => PinValue(port[k], w)))
  }

  // ----- one bit -----

  function OperandA(a: seq<Pin>, i: nat): Net {
    if i >= |a| then Gnd
    else match a[i]
      case FromLogic(id) => Wire(id)
      case FromVcc => Vcc
      case _ => Gnd
  }

  /** When subtracting, constants are inverted on the spot and so is the padding. */
  function OperandB(b: seq<Pin>, i: nat, subtraction: bool): Net {
    if i >= |b| then (if subtraction then Vcc else Gnd)
    else match b[i]
      case FromLogic(id) => if subtraction then Inverted(i) else Wire(id)
      case FromVcc => if subtraction then Gnd else Vcc
      case _ => if subtraction then Vcc else Gnd
  }

  function Inverter(b: seq<Pin>, i: nat, subtraction: bool): seq<Gate> {
    if subtraction && i < |b| && b[i].FromLogic? then [Gate(Not, [Wire(b[i].id)], Inverted(i))] else []
  }

  function CarryInto(i: nat, subtraction: bool): Net {
    if i > 0 then Carry(i - 1) else if subtraction then Vcc else Gnd
  }

  function SumGate(a: seq<Pin>, b: seq<Pin>, i: nat, subtraction: bool): Gate {
    var x, y := OperandA(a, i), OperandB(b, i, subtraction);
    if i > 0 then Gate(AdderFunc, [Carry(i - 1), x, y], Out(i))
      else Gate(if subtraction then Xnor else Xor, [x, y], Out(i))
  }

  function CarryGate(a: seq<Pin>, b: seq<Pin>, i: nat, subtraction: bool): Gate {
    var x, y := OperandA(a, i), OperandB(b, i, subtraction);
    if i > 0 then Gate(CarryFunc, [Carry(i - 1), x, y], Carry(i))
      else Gate(if subtraction then Or else And, [x, y], Carry(i))
  }

  /** A subtraction leaves out its last carry. */
  function Stage(a: seq<Pin>, b: seq<Pin>, width: nat, i: nat, subtraction: bool): seq<Gate> {
    Inverter(b, i, subtraction) + [SumGate(a, b, i, subtraction)]
    + if i + 1 != width || !subtraction then [CarryGate(a, b, i, subtraction)] else []
  }

  function Stages(a: seq<Pin>, b: seq<Pin>, width: nat, k: nat, subtraction: bool): seq<Gate> {
    if k == 0 then [] else Stages(a, b, width, k - 1, subtraction) + Stage(a, b, width, k - 1, subtraction)
  }

  lemma {:induction false} StageHolds(a: seq<Pin>, b: seq<Pin>, width: nat, k: nat, i: nat, subtraction: bool, w: Wires)
    requires i < k && AllHold(Stages(a, b, width, k, subtraction), w)
    ensures AllHold(Stage(a, b, width, i, subtraction), w)
    decreases k
  {
    var before, stage := Stages(a, b, width, k - 1, subtraction), Stage(a, b, width, k - 1, subtraction);
    var all := before + stage;
    assert all == Stages(a, b, width, k, subtraction);
    if i < k - 1 {
      forall j | 0 <= j < |before| ensures Holds(before[j], w) {
        assert all[j] == before[j];
      }
      StageHolds(a, b, width, k - 1, i, subtraction, w);
    } else {
      forall j | 0 <= j < |stage| ensures Holds(stage[j], w) {
        assert all[|before| + j] == stage[j];
      }
    }
  }

  /** One stage adds one bit: sum and carry out of both operands and the carry in. */
  lemma {:induction false} StageAdds(a: seq<Pin>, b: seq<Pin>, width: nat, i: nat, subtraction: bool, w: Wires)
    requires AllHold(Stage(a, b, width, i, subtraction), w)
    ensures w(OperandA(a, i)) == (i < |a| && PinValue(a[i], w))
    ensures w(OperandB(b, i, subtraction)) == ((i < |b| && PinValue(b[i], w)) != subtraction)
    ensures w(Out(i)) == Parity(w(OperandA(a, i)), w(OperandB(b, i, subtraction)), w(CarryInto(i, subtraction)))
    ensures i + 1 != width || !subtraction ==>
      w(Carry(i)) == Majority(w(OperandA(a, i)), w(OperandB(b, i, subtraction)), w(CarryInto(i, subtraction)))
  {
    var stage, inverter := Stage(a, b, width, i, subtraction), Inverter(b, i, subtraction);
    assert stage[|inverter|] == SumGate(a, b, i, subtraction);
    if inverter != [] {
      assert stage[0] == inverter[0];
    }
    if i + 1 != width || !subtraction {
      assert stage[|inverter| + 1] == CarryGate(a, b, i, subtraction);
    }
  }

  // ----- the whole block -----

  ghost function BitsA(a: seq<Pin>, k: nat, w: Wires): seq<bool> {
    seq(k, i requires 0 <= i < k => w(OperandA(a, i)))
  }

  ghost function BitsB(b: seq<Pin>, k: nat, subtraction: bool, w: Wires): seq<bool> {
    seq(k, i requires 0 <= i < k => w(OperandB(b, i, subtraction)))
  }

  ghost function BitsOut(k: nat, w: Wires): seq<bool> {
    seq(k, i requires 0 <= i < k => w(Out(i)))
  }

  /** Sum bits plus the pending carry equal the operands so far plus the carry in. */
  ghost predicate Adds(out: nat, p: nat, carry: bool, x: nat, y: nat, carryIn: bool) {
    out + p * Bit(carry) == x + y + Bit(carryIn)
  }

  lemma {:induction false} OneMoreBit(out: nat, p: nat, c: bool, x: nat, y: nat, cin: bool, s: bool, a: bool,
                                      b: bool, d: bool)
    requires Adds(out, p, c, x, y, cin) && s == Parity(a, b, c) && d == Majority(a, b, c)
    ensures Adds(out + p * Bit(s), 2 * p, d, x + p * Bit(a), y + p * Bit(b), cin)
  {
    assert Bit(s) + 2 * Bit(d) == Bit(a) + Bit(b) + Bit(c);
    assert p * Bit(s) + 2 * p * Bit(d) == p * (Bit(s) + 2 * Bit(d));
    assert p * (Bit(a) + Bit(b) + Bit(c)) == p * Bit(a) + p * Bit(b) + p * Bit(c);
  }

  ghost predicate StagesAdded(a: seq<Pin>, b: seq<Pin>, k: nat, subtraction: bool, carry: bool, w: Wires) {
    Adds(Val(BitsOut(k, w)), Pow2(k), carry, Val(BitsA(a, k, w)), Val(BitsB(b, k, subtraction, w)), subtraction)
  }

  lemma {:induction false} Snoc(bs: seq<bool>, i: nat)
    requires |bs| == i + 1
    ensures Val(bs) == Val(bs[..i]) + Pow2(i) * Bit(bs[i])
  {
    ValTakeStep(bs, i);
    assert bs[..i + 1] == bs;
  }

  lemma {:induction false} OneMoreStage(a: seq<Pin>, b: seq<Pin>, i: nat, subtraction: bool, c: bool, w: Wires)
    requires StagesAdded(a, b, i, subtraction, c, w)
    requires w(Out(i)) == Parity(w(OperandA(a, i)), w(OperandB(b, i, subtraction)), c)
    ensures StagesAdded(a, b, i + 1, subtraction, Majority(w(OperandA(a, i)), w(OperandB(b, i, subtraction)), c), w)
  {
    var x, y := w(OperandA(a, i)), w(OperandB(b, i, subtraction));
    OneMoreBit(Val(BitsOut(i, w)), Pow2(i), c, Val(BitsA(a, i, w)), Val(BitsB(b, i, subtraction, w)), subtraction,
               w(Out(i)), x, y, Majority(x, y, c));
    Snoc(BitsOut(i + 1, w), i);
    Snoc(BitsA(a, i + 1, w), i);
    Snoc(BitsB(b, i + 1, subtraction, w), i);
    assert BitsOut(i + 1, w)[..i] == BitsOut(i, w) && BitsA(a, i + 1, w)[..i] == BitsA(a, i, w);
    assert BitsB(b, i + 1, subtraction, w)[..i] == BitsB(b, i, subtraction, w);
  }

  lemma {:induction false} StagesAdd(a: seq<Pin>, b: seq<Pin>, width: nat, k: nat, subtraction: bool, w: Wires)
    returns (carry: bool)
    requires k <= width && AllHold(Stages(a, b, width, width, subtraction), w)
    ensures StagesAdded(a, b, k, subtraction, carry, w)
    ensures k < width ==> carry == w(CarryInto(k, subtraction))
    decreases k
  {
    if k == 0 {
      carry := subtraction;
    } else {
      var i := k - 1;
      var c := StagesAdd(a, b, width, i, subtraction, w);
      StageHolds(a, b, width, width, i, subtraction, w);
      StageAdds(a, b, width, i, subtraction, w);
      carry := Majority(w(OperandA(a, i)), w(OperandB(b, i, subtraction)), c);
      OneMoreStage(a, b, i, subtraction, c, w);
    }
  }

  lemma {:induction false} ValComplement(bs: seq<bool>, cs: seq<bool>)
    requires |bs| == |cs| && forall k :: 0 <= k < |bs| ==> cs[k] == !bs[k]
    ensures Val(cs) == Pow2(|bs|) - 1 - Val(bs)
  {
    if bs != [] {
      ValComplement(bs[1..], cs[1..]);
    }
  }

  function Fitted(bs: seq<bool>, k: nat): (r: seq<bool>)
    ensures |r| == k
  {
    seq(k, i requires 0 <= i < k => i < |bs| && bs[i])
  }

  ghost function PortBits(port: seq<Pin>, w: Wires): (bs: seq<bool>)
    ensures |bs| == |port| && PortValue(port, w) == Val(bs)
  {
    seq(|port|, k requires 0 <= k < |port| => PinValue(port[k], w))
  }

  lemma {:induction false} OperandsFit(a: seq<Pin>, b: seq<Pin>, width: nat, subtraction: bool, w: Wires)
    requires AllHold(Stages(a, b, width, width, subtraction), w)
    ensures Val(BitsA(a, width, w)) == PortValue(a, w) % Pow2(width)
    ensures var y := PortValue(b, w) % Pow2(width);
      Val(BitsB(b, width, subtraction, w)) == if subtraction then Pow2(width) - 1 - y else y
  {
    var fit := Fitted(PortBits(b, w), width);
    forall i | 0 <= i < width
      ensures BitsA(a, width, w)[i] == (i < |a| && PortBits(a, w)[i])
      ensures BitsB(b, width, subtraction, w)[i] == (fit[i] != subtraction)
    {
      StageHolds(a, b, width, width, i, subtraction, w);
      StageAdds(a, b, width, i, subtraction, w);
    }
    ValFitted(BitsA(a, width, w), PortBits(a, w));
    ValFitted(fit, PortBits(b, w));
    if subtraction {
      ValComplement(fit, BitsB(b, width, subtraction, w));
    } else {
      assert BitsB(b, width, subtraction, w) == fit;
    }
  }

  ghost predicate IsResult(out: nat, p: nat, a: int, b: int, subtraction: bool) {
    p > 0 && out == (if subtraction then a - b else a + b) % p
  }

  lemma {:induction false} ReduceSum(out: nat, p: nat, carry: bool, x: nat, y: nat, a: int, b: int)
    requires out < p && Adds(out, p, carry, x, y, false) && x == a % p && y == b % p
    ensures IsResult(out, p, a, b, false)
  {
    var qa, qb := a / p, b / p;
    assert a == qa * p + x && b == qb * p + y;
    assert (qa + qb + Bit(carry)) * p == qa * p + qb * p + p * Bit(carry);
    ModUnique(a + b, p, qa + qb + Bit(carry), out);
  }

  lemma {:induction false} ReduceDifference(out: nat, p: nat, carry: bool, x: nat, y: nat, a: int, b: int)
    requires out < p && Adds(out, p, carry, x, y, true) && x == a % p && y == p - 1 - b % p
    ensures IsResult(out, p, a, b, true)
  {
    var qa, qb := a / p, b / p;
    assert a == qa * p + x && b == qb * p + (p - 1 - y);
    assert (qa - qb + Bit(carry) - 1) * p == qa * p - qb * p + p * Bit(carry) - p;
    ModUnique(a - b, p, qa - qb + Bit(carry) - 1, out);
  }

  /** For all widths and all operands the block computes the sum or the difference modulo the output width. */
  lemma {:induction false} RippleComputes(a: seq<Pin>, b: seq<Pin>, width: nat, subtraction: bool, w: Wires)
    requires AllHold(Stages(a, b, width, width, subtraction), w)
    ensures IsResult(Val(BitsOut(width, w)), Pow2(width), PortValue(a, w), PortValue(b, w), subtraction)
  {
    var carry := StagesAdd(a, b, width, width, subtraction, w);
    OperandsFit(a, b, width, subtraction, w);
    ValBound(BitsOut(width, w));
    var out, x, y := Val(BitsOut(width, w)), Val(BitsA(a, width, w)), Val(BitsB(b, width, subtraction, w));
    if subtraction {
      ReduceDifference(out, Pow2(width), carry, x, y, PortValue(a, w), PortValue(b, w));
    } else {
      ReduceSum(out, Pow2(width), carry, x, y, PortValue(a, w), PortValue(b, w));
    }
  }

  // ----- the network has behaviours -----

  function InputValue(p: Pin, inputs: nat -> bool): bool {
    if p.FromLogic? then inputs(p.id) else p == FromVcc
  }

  function InputA(a: seq<Pin>, i: nat, inputs: nat -> bool): bool {
    i < |a| && InputValue(a[i], inputs)
  }

  function InputB(b: seq<Pin>, i: nat, subtraction: bool, inputs: nat -> bool): bool {
    (i < |b| && InputValue(b[i], inputs)) != subtraction
  }

  function CarryBit(a: seq<Pin>, b: seq<Pin>, i: nat, subtraction: bool, inputs: nat -> bool): bool
    decreases i
  {
    if i == 0 then subtraction
    else Majority(InputA(a, i - 1, inputs), InputB(b, i - 1, subtraction, inputs),
                  CarryBit(a, b, i - 1, subtraction, inputs))
  }

  ghost predicate Extends(a: seq<Pin>, b: seq<Pin>, subtraction: bool, inputs: nat -> bool, w: Wires) {
    && !w(Gnd) && w(Vcc) && (forall id: nat :: w(Wire(id)) == inputs(id))
    && (forall i: nat :: w(Inverted(i)) == InputB(b, i, subtraction, inputs))
    && (forall i: nat :: w(Carry(i)) == CarryBit(a, b, i + 1, subtraction, inputs))
    && (forall i: nat :: w(Out(i)) == Parity(InputA(a, i, inputs), InputB(b, i, subtraction, inputs),
                                               CarryBit(a, b, i, subtraction, inputs)))
  }

  lemma {:induction false} StageBehaves(a: seq<Pin>, b: seq<Pin>, width: nat, i: nat, subtraction: bool,
                                        inputs: nat -> bool, w: Wires)
    requires Extends(a, b, subtraction, inputs, w)
    ensures AllHold(Stage(a, b, width, i, subtraction), w)
  {
    var c := CarryBit(a, b, i, subtraction, inputs);
    assert w(OperandA(a, i)) == InputA(a, i, inputs)
      && w(OperandB(b, i, subtraction)) == InputB(b, i, subtraction, inputs);
    assert w(CarryInto(i, subtraction)) == c;
    assert Holds(SumGate(a, b, i, subtraction), w);
    assert w(Carry(i)) == Majority(InputA(a, i, inputs), InputB(b, i, subtraction, inputs), c);
    assert Holds(CarryGate(a, b, i, subtraction), w);
  }

  lemma {:induction false} StagesBehave(a: seq<Pin>, b: seq<Pin>, width: nat, k: nat, subtraction: bool,
                                        inputs: nat -> bool, w: Wires)
    requires Extends(a, b, subtraction, inputs, w)
    ensures AllHold(Stages(a, b, width, k, subtraction), w)
    decreases k
  {
    if k > 0 {
      StagesBehave(a, b, width, k - 1, subtraction, inputs, w);
      StageBehaves(a, b, width, k - 1, subtraction, inputs, w);
    }
  }

  /** Every assignment of the nets outside extends to one of the whole block. */
  lemma {:induction false} RippleBehaves(a: seq<Pin>, b: seq<Pin>, width: nat, subtraction: bool, inputs: nat -> bool)
    returns (w: Wires)
    ensures AllHold(Stages(a, b, width, width, subtraction), w) && forall id: nat :: w(Wire(id)) == inputs(id)
  {
    w := (n: Net) =>
      match n
      case Gnd => false
      case Vcc => true
      case Wire(id) => inputs(id)
      case Inverted(i) => InputB(b, i, subtraction, inputs)
      case Carry(i) => CarryBit(a, b, i + 1, subtraction, inputs)
      case Out(i) => Parity(InputA(a, i, inputs), InputB(b, i, subtraction, inputs),
                            CarryBit(a, b, i, subtraction, inputs));
    StagesBehave(a, b, width, width, subtraction, inputs, w);
  }

  // ----- the output pins of the node -----

  /** An output pin of the node: missing, without a net, or driving one. */
  datatype OutPin = Absent | Placeholder | Driving

  /** The output pin of sum bit i; on a node with a third port the carry out stands in front of the sum. */
  function SumPin(i: nat, width: nat, shifted: bool): nat {
    if !shifted then i else if i + 1 < width then i + 1 else 0
  }

  /** The sum bit that output pin p stands for. */
  function BitOf(p: nat, width: nat, shifted: bool): nat {
    if !shifted then p else if p > 0 then p - 1 else if width > 0 then width - 1 else 0
  }

  /** The nets that the functions of bits 0 to k - 1 put on the node's output pins. */
  function Wiring(outs: seq<OutPin>, width: nat, k: nat, shifted: bool): map<nat, Net>
    requires width <= |outs|
  {
    map p: nat | p < width && BitOf(p, width, shifted) < k && outs[p].Driving? :: Out(BitOf(p, width, shifted))
  }

  /** Each bit has one pin. */
  lemma {:induction false} OnePin(p: nat, i: nat, width: nat, shifted: bool)
    requires p < width && i < width
    ensures BitOf(p, width, shifted) < width && SumPin(i, width, shifted) < width
    ensures BitOf(p, width, shifted) == i <==> p == SumPin(i, width, shifted)
  {
  }

  lemma {:induction false} WiringGrows(outs: seq<OutPin>, width: nat, k: nat, shifted: bool, p: nat)
    requires k < width <= |outs| && p == SumPin(k, width, shifted)
    ensures p < width && Wiring(outs, width, k + 1, shifted)
      == if outs[p].Driving? then Wiring(outs, width, k, shifted)[p := Out(k)] else Wiring(outs, width, k, shifted)
  {
    OnePin(0, k, width, shifted);
    var before, after := Wiring(outs, width, k, shifted), Wiring(outs, width, k + 1, shifted);
    forall q: nat | q < width
      ensures q in after <==> q in before || (q == p && outs[p].Driving?)
    {
      OnePin(q, k, width, shifted);
    }
    assert after.Keys == before.Keys + if outs[p].Driving? then {p} else {};
  }

  lemma {:induction false} UpdateLast(was: map<nat, Net>, more: map<nat, Net>, p: nat, out: Net)
    ensures was + more[p := out] == (was + more)[p := out]
  {
  }

  /** The wiring after one bit more, put over the one there was before. */
  lemma {:induction false} WiringNext(outs: seq<OutPin>, width: nat, k: nat, shifted: bool, was: map<nat, Net>,
                                      now: map<nat, Net>)
    requires k < width <= |outs| && now == was + Wiring(outs, width, k, shifted)
    ensures var p := SumPin(k, width, shifted);
      p < width && was + Wiring(outs, width, k + 1, shifted) == if outs[p].Driving? then now[p := Out(k)] else now
  {
    var p := SumPin(k, width, shifted);
    WiringGrows(outs, width, k, shifted, p);
    UpdateLast(was, Wiring(outs, width, k, shifted), p, Out(k));
  }

  lemma {:induction false} NoWiring(outs: seq<OutPin>, width: nat, shifted: bool, was: map<nat, Net>)
    requires width <= |outs|
    ensures was + Wiring(outs, width, 0, shifted) == was
  {
  }

  ghost predicate AllDriving(outs: seq<OutPin>, width: nat) {
    width <= |outs| && forall p :: 0 <= p < width ==> outs[p].Driving?
  }

  ghost predicate Drives(driver: map<nat, Net>, width: nat) {
    forall p: nat :: p < width ==> p in driver
  }

  /** What the output pins carry, in the order of the pins. */
  ghost function Driven(driver: map<nat, Net>, width: nat, w: Wires): (bs: seq<bool>)
    requires Drives(driver, width)
    ensures |bs| == width
  {
    seq(width, p requires 0 <= p < width => w(driver[p]))
  }

  /** The number on the output pins: with a third port, pin 0 is the carry out above all the others. */
  ghost function NodeValue(driver: map<nat, Net>, width: nat, shifted: bool, w: Wires): nat
    requires Drives(driver, width)
  {
    var pins := Driven(driver, width, w);
    if shifted && width > 0 then Val(pins[1..] + [pins[0]]) else Val(pins)
  }

  ghost predicate NodeAdded(a: seq<Pin>, b: seq<Pin>, driver: map<nat, Net>, width: nat, shifted: bool,
                            subtraction: bool, w: Wires)
    requires Drives(driver, width)
  {
    IsResult(NodeValue(driver, width, shifted, w), Pow2(width), PortValue(a, w), PortValue(b, w), subtraction)
  }

  lemma {:induction false} WiringDrives(outs: seq<OutPin>, width: nat, shifted: bool, was: map<nat, Net>)
    requires AllDriving(outs, width)
    ensures Drives(was + Wiring(outs, width, width, shifted), width)
  {
    forall p: nat | p < width
      ensures p in Wiring(outs, width, width, shifted)
    {
      OnePin(p, p, width, shifted);
    }
  }

  lemma {:induction false} AllHoldLast(before: seq<Gate>, gs: seq<Gate>, w: Wires)
    requires AllHold(before + gs, w)
    ensures AllHold(gs, w)
  {
    forall k | 0 <= k < |gs|
      ensures Holds(gs[k], w)
    {
      assert (before + gs)[|before| + k] == gs[k];
    }
  }

  /** Whatever the other pins are, one that drives a net carries its own bit. */
  lemma {:induction false} PinCarries(outs: seq<OutPin>, width: nat, shifted: bool, p: nat, w: Wires)
    requires p < width <= |outs| && outs[p].Driving?
    ensures var wiring, i := Wiring(outs, width, width, shifted), BitOf(p, width, shifted);
      p in wiring && i < width && w(wiring[p]) == BitsOut(width, w)[i]
  {
    OnePin(p, p, width, shifted);
    assert p in Wiring(outs, width, width, shifted);
  }

  /** The node's pins carry the sum or the difference modulo the width, whichever way they are numbered. */
  lemma {:induction false} NodeAdds(a: seq<Pin>, b: seq<Pin>, outs: seq<OutPin>, was: map<nat, Net>, width: nat,
                                    shifted: bool, subtraction: bool, w: Wires)
    requires AllDriving(outs, width) && AllHold(Stages(a, b, width, width, subtraction), w)
    ensures var driver := was + Wiring(outs, width, width, shifted);
      Drives(driver, width) && NodeAdded(a, b, driver, width, shifted, subtraction, w)
  {
    RippleComputes(a, b, width, subtraction, w);
    WiringDrives(outs, width, shifted, was);
    var pins := Driven(was + Wiring(outs, width, width, shifted), width, w);
    forall p | 0 <= p < width
      ensures BitOf(p, width, shifted) < width && pins[p] == BitsOut(width, w)[BitOf(p, width, shifted)]
    {
      PinCarries(outs, width, shifted, p, w);
    }
    assert (if shifted && width > 0 then pins[1..] + [pins[0]] else pins) == BitsOut(width, w);
  }

  /** The wiring of a three-port addition. */
  ghost function CarryWiring(outs: seq<OutPin>, width: nat): (driver: map<nat, Net>)
    requires AllDriving(outs, width)
    ensures Drives(driver, width)
  {
    WiringDrives(outs, width, true, map[]);
    map[] + Wiring(outs, width, width, true)
  }

  /** With a pin more than either operand nothing is cut off. */
  lemma {:induction false} CarryOutKept(a: seq<Pin>, b: seq<Pin>, outs: seq<OutPin>, width: nat, w: Wires)
    requires |a| < width && |b| < width
    requires AllDriving(outs, width) && AllHold(Stages(a, b, width, width, false), w)
    ensures NodeValue(CarryWiring(outs, width), width, true, w) == PortValue(a, w) + PortValue(b, w)
  {
    NodeAdds(a, b, outs, map[], width, true, false, w);
    ValBound(PortBits(a, w));
    ValBound(PortBits(b, w));
    Pow2Monotone(|a|, width - 1);
    Pow2Monotone(|b|, width - 1);
    ModUnique(PortValue(a, w) + PortValue(b, w), Pow2(width), 0, PortValue(a, w) + PortValue(b, w));
  }

  /** In every behaviour the pins of a three-port node carry both operands plus its carry in. */
  ghost predicate AddsCarryIn(a: seq<Pin>, b: seq<Pin>, c: Pin, outs: seq<OutPin>, width: nat)
    requires AllDriving(outs, width)
  {
    forall w: Wires :: AllHold(Stages(a, b, width, width, false), w) ==>
      IsResult(NodeValue(CarryWiring(outs, width), width, true, w), Pow2(width),
               PortValue(a, w) + Bit(PinValue(c, w)), PortValue(b, w), false)
  }

  lemma {:induction false} NextIsOther(x: nat, p: nat)
    requires p >= 2
    ensures x % p != (x + 1) % p
  {
    if x % p + 1 < p {
      ModUnique(x + 1, p, x / p, x % p + 1);
    } else {
      ModUnique(x + 1, p, x / p + 1, 0);
    }
  }

  /** A behaviour in which a carry that can come in is lost. */
  lemma {:induction false} CarryInLost(a: seq<Pin>, b: seq<Pin>, c: Pin, outs: seq<OutPin>, width: nat)
    requires AllDriving(outs, width) && width > 0 && (c.FromVcc? || c.FromLogic?)
    ensures !AddsCarryIn(a, b, c, outs, width)
  {
    var w := RippleBehaves(a, b, width, false, _ => true);
    assert PinValue(c, w);
    NodeAdds(a, b, outs, map[], width, true, false, w);
    Pow2Monotone(1, width);
    NextIsOther(PortValue(a, w) + PortValue(b, w), Pow2(width));
  }

  /** The third port is never looked at, so the sum is right just when no carry can come in. */
  lemma {:induction false} CarryInExact(a: seq<Pin>, b: seq<Pin>, c: Pin, outs: seq<OutPin>, width: nat)
    requires AllDriving(outs, width)
    ensures AddsCarryIn(a, b, c, outs, width) <==> width == 0 || c == Undriven || c == FromGnd
  {
    if width == 0 || c == Undriven || c == FromGnd {
      forall w: Wires | AllHold(Stages(a, b, width, width, false), w)
        ensures IsResult(NodeValue(CarryWiring(outs, width), width, true, w), Pow2(width),
                         PortValue(a, w) + Bit(PinValue(c, w)), PortValue(b, w), false)
      {
        NodeAdds(a, b, outs, map[], width, true, false, w);
      }
    } else {
      CarryInLost(a, b, c, outs, width);
    }
  }

  // ----- the builder -----

  function CarryPin(i: nat, subtraction: bool): seq<Net> {
    if i == 0 then [] else [CarryInto(i, subtraction)]
  }

  lemma {:induction false} SumGateMade(a: seq<Pin>, b: seq<Pin>, i: nat, subtraction: bool, pins: seq<Net>)
    requires pins == CarryPin(i, subtraction) + [OperandA(a, i), OperandB(b, i, subtraction)]
    ensures Gate(Netlist.FunctionFor(AdderFunc, CarryInto(i, subtraction)), pins, Out(i)) ==
      SumGate(a, b, i, subtraction)
    ensures pins == SumGate(a, b, i, subtraction).pins
  {
    assert pins == SumGate(a, b, i, subtraction).pins;
  }

  lemma {:induction false} CarryGateMade(a: seq<Pin>, b: seq<Pin>, i: nat, subtraction: bool, pins: seq<Net>,
                                         carryPins: seq<Net>)
    requires pins == SumGate(a, b, i, subtraction).pins
    requires carryPins == CarryPin(i, subtraction) + pins[|pins| - 2..]
    ensures Gate(Netlist.FunctionFor(CarryFunc, CarryInto(i, subtraction)), carryPins, Carry(i)) ==
      CarryGate(a, b, i, subtraction)
  {
    assert carryPins == CarryGate(a, b, i, subtraction).pins;
  }

  lemma {:induction false} StageMade(a: seq<Pin>, b: seq<Pin>, width: nat, i: nat, subtraction: bool,
                                     before: seq<Gate>, middle: seq<Gate>, after: seq<Gate>)
    requires middle == before + Inverter(b, i, subtraction) + [SumGate(a, b, i, subtraction)]
    requires after == middle + if i + 1 != width || !subtraction then [CarryGate(a, b, i, subtraction)] else []
    ensures after == before + Stage(a, b, width, i, subtraction)
  {
  }

  class Netlist {
    var gates: seq<Gate>
    var driver: map<nat, Net>  // what drives the net of an output pin of the node

    /** Two-input functions while the carry is a constant, three-input ones afterwards. */
    static function FunctionFor(funct: Op, previousCarry: Net): Op {
      if previousCarry == Gnd then (if funct == AdderFunc then Xor else And)
      else if previousCarry == Vcc then (if funct == AdderFunc then Xnor else Or)
      else funct
    }

    method ConnectOperandB(b: seq<Pin>, i: nat, subtraction: bool) returns (y: Net)
      modifies this`gates
      ensures y == OperandB(b, i, subtraction) && gates == old(gates) + Inverter(b, i, subtraction)
    {
      if i < |b| {
        if b[i] == Undriven || b[i] == FromGnd {
          y := if subtraction then Vcc else Gnd;
        } else if b[i] == FromVcc {
          y := if subtraction then Gnd else Vcc;
        } else if subtraction {
          gates := gates + [Gate(Not, [Wire(b[i].id)], Inverted(i))];
          y := Inverted(i);
        } else {
          y := Wire(b[i].id);
        }
      } else {
        y := if subtraction then Vcc else Gnd;
      }
    }

    method MakeAdder(funct: Op, copyFrom: seq<Net>, previousCarry: Net, a: seq<Pin>, b: seq<Pin>, i: nat,
                     subtraction: bool, out: Net)
      returns (pins: seq<Net>)
      requires funct == AdderFunc || funct == CarryFunc
      requires copyFrom != [] ==> |copyFrom| == 2 + if previousCarry == Gnd || previousCarry == Vcc then 0 else 1
      modifies this`gates
      ensures pins == (if previousCarry == Gnd || previousCarry == Vcc then [] else [previousCarry])
                      + (if copyFrom != [] then copyFrom[|copyFrom| - 2..]
                         else [OperandA(a, i), OperandB(b, i, subtraction)])
      ensures gates == old(gates) + (if copyFrom != [] then [] else Inverter(b, i, subtraction))
        + [Gate(FunctionFor(funct, previousCarry), pins, out)]
    {
      var isThreePortGate := 0;
      pins := [];
      if previousCarry != Gnd && previousCarry != Vcc {
        pins := [previousCarry];
        isThreePortGate := 1;
      }
      if copyFrom != [] {
        pins := pins + [copyFrom[0 + isThreePortGate]];
        pins := pins + [copyFrom[1 + isThreePortGate]];
      } else {
        if i < |a| {
          if a[i] == Undriven || a[i] == FromGnd {
            pins := pins + [Gnd];
          } else if a[i] == FromVcc {
            pins := pins + [Vcc];
          } else {
            pins := pins + [Wire(a[i].id)];
          }
        } else {
          pins := pins + [Gnd];
        }
        var y := ConnectOperandB(b, i, subtraction);
        pins := pins + [y];
      }
      gates := gates + [Gate(FunctionFor(funct, previousCarry), pins, out)];
    }

    /** A pin without a net is left as it is. */
    method RemapPinToNewNode(outs: seq<OutPin>, p: nat, out: Net)
      requires p < |outs| && outs[p] != Absent
      modifies this`driver
      ensures driver == if outs[p].Driving? then old(driver)[p := out] else old(driver)
    {
      if outs[p] == Driving {
        driver := driver[p := out];
      }
    }

    method ConnectOutputPinToNode(outs: seq<OutPin>, width: nat, i: nat, ports: nat, subtraction: bool)
      requires i < width <= |outs| && (subtraction ==> outs[i] != Absent)
      modifies this`driver
      ensures ports == 2 || subtraction ==>
        driver == if outs[i].Driving? then old(driver)[i := Out(i)] else old(driver)
      ensures ports != 2 && !subtraction && i + 1 < width ==>
        driver == if outs[i + 1].Driving? then old(driver)[i + 1 := Out(i)] else old(driver)
      ensures ports != 2 && !subtraction && i + 1 == width ==>
        driver == if outs[0].Driving? then old(driver)[0 := Out(i)] else old(driver)
    {
      if subtraction {
        RemapPinToNewNode(outs, i, Out(i));
      } else {
        var p := if ports == 2 then i else if i < width - 1 then i + 1 else 0;
        if outs[p] != Absent && (outs[p] != Placeholder || ports == 2) {
          RemapPinToNewNode(outs, p, Out(i));
        }
      }
    }

    method MakeSum(a: seq<Pin>, b: seq<Pin>, i: nat, subtraction: bool, previousCarry: Net) returns (pins: seq<Net>)
      requires previousCarry == CarryInto(i, subtraction)
      modifies this`gates
      ensures gates == old(gates) + Inverter(b, i, subtraction) + [SumGate(a, b, i, subtraction)]
      ensures pins == SumGate(a, b, i, subtraction).pins
    {
      pins := MakeAdder(AdderFunc, [], previousCarry, a, b, i, subtraction, Out(i));
      SumGateMade(a, b, i, subtraction, pins);
    }

    method MakeCarry(a: seq<Pin>, b: seq<Pin>, i: nat, subtraction: bool, previousCarry: Net, pins: seq<Net>)
      returns (carry: Net)
      requires previousCarry == CarryInto(i, subtraction) && pins == SumGate(a, b, i, subtraction).pins
      modifies this`gates
      ensures gates == old(gates) + [CarryGate(a, b, i, subtraction)] && carry == Carry(i)
    {
      var carryPins := MakeAdder(CarryFunc, pins, previousCarry, a, b, i, subtraction, Carry(i));
      CarryGateMade(a, b, i, subtraction, pins, carryPins);
      carry := Carry(i);
    }

    /** The functions of one bit; the carry out is left out at the end of a subtraction. */
    method MakeStage(a: seq<Pin>, b: seq<Pin>, width: nat, i: nat, subtraction: bool, previousCarry: Net)
      returns (carry: Net)
      requires previousCarry == CarryInto(i, subtraction)
      modifies this`gates
      ensures gates == old(gates) + Stage(a, b, width, i, subtraction)
      ensures i + 1 != width ==> carry == Carry(i)
    {
      ghost var before := gates;
      var pins := MakeSum(a, b, i, subtraction, previousCarry);
      ghost var middle := gates;
      carry := previousCarry;
      if i != width - 1 || !subtraction {
        carry := MakeCarry(a, b, i, subtraction, previousCarry, pins);
      }
      StageMade(a, b, width, i, subtraction, before, middle, gates);
    }

    /** One bit with its output pin, after the bits below it. */
    method MakeBit(a: seq<Pin>, b: seq<Pin>, outs: seq<OutPin>, width: nat, i: nat, ports: nat, subtraction: bool,
                   previousCarry: Net, ghost before: seq<Gate>, ghost was: map<nat, Net>)
      returns (carry: Net)
      requires i < width <= |outs| && (subtraction ==> outs[i] != Absent)
      requires previousCarry == CarryInto(i, subtraction)
      requires gates == before + Stages(a, b, width, i, subtraction)
      requires driver == was + Wiring(outs, width, i, ports != 2 && !subtraction)
      modifies this
      ensures gates == before + Stages(a, b, width, i + 1, subtraction)
      ensures driver == was + Wiring(outs, width, i + 1, ports != 2 && !subtraction)
      ensures i + 1 != width ==> carry == Carry(i)
    {
      WiringNext(outs, width, i, ports != 2 && !subtraction, was, driver);
      carry := MakeStage(a, b, width, i, subtraction, previousCarry);
      ConnectOutputPinToNode(outs, width, i, ports, subtraction);
    }

    /**
     * Every output pin that has a net is driven by its bit. When all have one, they carry the sum or the
     * difference in every behaviour, in order, or with pin 0 on top where an addition has a third port.
     */
    method InstantiateAddWithCarryBlock(a: seq<Pin>, b: seq<Pin>, outs: seq<OutPin>, width: nat, ports: nat,
                                        subtraction: bool)
      requires width <= |outs| && (subtraction ==> Absent !in outs)
      modifies this
      ensures gates == old(gates) + Stages(a, b, width, width, subtraction)
      ensures driver == old(driver) + Wiring(outs, width, width, ports != 2 && !subtraction)
      ensures AllDriving(outs, width) ==> Drives(driver, width)
      ensures AllDriving(outs, width) && (ports == 2 || subtraction) ==>
        forall w: Wires :: AllHold(gates, w) ==>
          IsResult(Val(Driven(driver, width, w)), Pow2(width), PortValue(a, w), PortValue(b, w), subtraction)
      ensures AllDriving(outs, width) && ports != 2 && !subtraction && width > 0 ==>
        forall w: Wires :: AllHold(gates, w) ==>
          var pins := Driven(driver, width, w);
          IsResult(Val(pins[1..] + [pins[0]]), Pow2(width), PortValue(a, w), PortValue(b, w), false)
    {
      ghost var before, was := gates, driver;
      var previousCarry := if subtraction then Vcc else Gnd;
      var i := 0;
      NoWiring(outs, width, ports != 2 && !subtraction, was);
      while i < width
        invariant 0 <= i <= width && (i < width ==> previousCarry == CarryInto(i, subtraction))
        invariant gates == before + Stages(a, b, width, i, subtraction)
        invariant driver == was + Wiring(outs, width, i, ports != 2 && !subtraction)
      {
        previousCarry := MakeBit(a, b, outs, width, i, ports, subtraction, previousCarry, before, was);
        i := i + 1;
      }
      if AllDriving(outs, width) {
        forall w: Wires | AllHold(gates, w)
          ensures Drives(driver, width) && NodeAdded(a, b, driver, width, ports != 2 && !subtraction, subtraction, w)
        {
          AllHoldLast(before, Stages(a, b, width, width, subtraction), w);
          NodeAdds(a, b, outs, was, width, ports != 2 && !subtraction, subtraction, w);
        }
        WiringDrives(outs, width, ports != 2 && !subtraction, was);
      }
    }
  }
}
