/** What the remainder pins of the divider carry when the quotient has one bit too many for its pins. */
module DivisionOverflow {
  import opened Bits
  import opened Nets
  import opened Division

  // ----- every dividend -----

  /** x is q * d + r, but for e times the weight p of what has been dropped. */
  ghost predicate Accounts(x: nat, q: nat, d: nat, r: nat, p: nat, e: nat) {
    x == q * d + r + p * e
  }

  /** One row more, when the row above keeps m and drops t times the weight p. */
  lemma {:induction false} AccountsNext(x: nat, q: nat, d: nat, m: nat, t: nat, p: nat, e: nat, b: nat)
    requires Accounts(x, q, d, m + p * t, p, e)
    ensures var next := b + 2 * m;
      Accounts(b + 2 * x, Bit(next >= d) + 2 * q, d, if next >= d then next - d else next, p, 2 * (e + t))
  {
    RestoringStep(q, d, m, b);
    assert p * (2 * (e + t)) == 2 * (p * e) + 2 * (p * t);
  }

  /** What a row hands on of the row above, and how often it drops 2^n. */
  lemma {:induction false} HandedOn(dividend: seq<Net>, divisor: seq<Net>, i: nat, w: Wires) returns (m: nat, t: nat)
    requires |dividend| == 2 * |divisor| - 1 && i + 1 < |divisor|
    ensures Number(RowOut(|divisor|, i), w) == m + Pow2(|divisor|) * t
    ensures Number(RowIn(dividend, |divisor|, i + 1), w) == Bit(w(dividend[|divisor| - 2 - i])) + 2 * m
  {
    var r, p := Number(RowOut(|divisor|, i), w), Pow2(|divisor|);
    NextRowInput(dividend, divisor, i, w);
    m, t := r % p, r / p;
  }

  lemma {:induction false} FirstRowAccounts(dividend: seq<Net>, divisor: seq<Net>, w: Wires)
    requires |divisor| >= 1 && |dividend| == 2 * |divisor| - 1
    requires CellsHold(dividend, divisor, w)
    ensures Accounts(Seen(dividend, |divisor|, 0, w), Val(QuotientBits(0, w)), Number(divisor, w),
                     Number(RowOut(|divisor|, 0), w), Pow2(|divisor|), 0)
  {
    FirstRowInput(dividend, |divisor|, w);
    RowRestores(dividend, divisor, 0, w);
    QuotientGrows(0, w);
  }

  /** Whatever the rows drop is a multiple of 2^n. */
  lemma {:induction false} RowsAccount(dividend: seq<Net>, divisor: seq<Net>, i: nat, w: Wires) returns (e: nat)
    requires |dividend| == 2 * |divisor| - 1 && i < |divisor|
    requires CellsHold(dividend, divisor, w)
    ensures Accounts(Seen(dividend, |divisor|, i, w), Val(QuotientBits(i, w)), Number(divisor, w),
                     Number(RowOut(|divisor|, i), w), Pow2(|divisor|), e)
  {
    if i == 0 {
      FirstRowAccounts(dividend, divisor, w);
      e := 0;
    } else {
      var n, q := |divisor|, Val(QuotientBits(i - 1, w));
      var e0 := RowsAccount(dividend, divisor, i - 1, w);
      var m, t := HandedOn(dividend, divisor, i - 1, w);
      SeenNext(dividend, n, i, w);
      RowRestores(dividend, divisor, i, w);
      QuotientGrows(i, w);
      AccountsNext(Seen(dividend, n, i - 1, w), q, Number(divisor, w), m, t, Pow2(n), e0,
                   Bit(w(dividend[n - 1 - i])));
      e := 2 * (e0 + t);
    }
  }

  lemma {:induction false} SameModulo(x: nat, y: nat, r: nat, p: nat, e: nat)
    requires p > 0 && x == y + r + p * e
    ensures (y + r % p) % p == x % p
  {
    var z := y + r % p;
    assert r == p * (r / p) + r % p;
    assert (z / p + r / p + e) * p == p * (z / p) + p * (r / p) + p * e;
    ModUnique(x, p, z / p + r / p + e, z % p);
  }

  /** A zero divisor included, quotient and remainder make up the dividend modulo 2^n. */
  lemma {:induction false} ArrayCongruent(dividend: seq<Net>, divisor: seq<Net>, w: Wires)
    requires |divisor| >= 2 && |dividend| == 2 * |divisor| - 1
    requires AllHold(ArrayGates(dividend, divisor, |divisor|), w)
    ensures var q, r := Val(QuotientBits(|divisor| - 1, w)), Number(RemainderNets(|divisor|), w);
      (q * Number(divisor, w) + r) % Pow2(|divisor|) == Number(dividend, w) % Pow2(|divisor|)
  {
    var n, d := |divisor|, Number(divisor, w);
    ArrayGatesHold(dividend, divisor, n, w);
    var e := RowsAccount(dividend, divisor, n - 1, w);
    SeenAll(dividend, n, w);
    LastRowRemainder(divisor, w);
    SameModulo(Number(dividend, w), Val(QuotientBits(n - 1, w)) * d, Number(RowOut(n, n - 1), w), Pow2(n), e);
  }

  // ----- dividends a little too large -----

  /** The dividends from d * 2^n on up to which no row drops a bit that is set. */
  ghost predicate JustTooLarge(dd: nat, d: nat, n: nat) {
    d > 0 && d * Pow2(n) <= dd <= d * Pow2(n) + Pow2(n) - d
  }

  /** All quotient bits so far are 1, and the rest is at least the divisor. */
  ghost predicate AllOnes(x: nat, d: nat, r: nat, p: nat) {
    r >= d && x == r + d * (p - 1)
  }

  lemma {:induction false} FirstRowTooLarge(dd: nat, low: nat, x: nat, d: nat, n: nat)
    requires n >= 1 && low < Pow2(n - 1) && dd == low + Pow2(n - 1) * x && dd >= d * Pow2(n)
    ensures x >= 2 * d
  {
    var p := Pow2(n - 1);
    assert d * Pow2(n) == p * (2 * d);
    assert p * (x + 1) == p * x + p;
    MulLess(p, 2 * d, x + 1);
  }

  /** One more row, whose quotient bit is 1 as well. */
  lemma {:induction false} AllOnesNext(x: nat, d: nat, r: nat, p: nat, b: nat)
    requires AllOnes(x, d, r, p) && b <= 1
    ensures b + 2 * r >= d && AllOnes(b + 2 * x, d, b + 2 * r - d, 2 * p)
  {
    assert d * (2 * p - 1) == 2 * (d * (p - 1)) + d;
  }

  /** Before the last row, whose bits weigh k >= 2 dividend bits, the partial remainder leaves its top bit 0. */
  lemma {:induction false} RoomLeft(dd: nat, low: nat, x: nat, d: nat, r: nat, p: nat, k: nat)
    requires k >= 2 && AllOnes(x, d, r, p) && dd == low + k * x
    requires d < p * k && dd <= d * (p * k) + p * k - d
    ensures r < p * k
  {
    var pn := p * k;
    assert k * x == k * r + k * (d * (p - 1));
    assert k * (d * (p - 1)) == d * pn - k * d;
    MulMonotone(d + 1, pn, k - 1);
    assert k * r <= pn + (k - 1) * d;
    MulLess(k, r, pn);
  }

  lemma {:induction false} FirstRowAllOnes(dividend: seq<Net>, divisor: seq<Net>, w: Wires)
    requires |divisor| >= 1 && |dividend| == 2 * |divisor| - 1
    requires CellsHold(dividend, divisor, w)
    requires JustTooLarge(Number(dividend, w), Number(divisor, w), |divisor|)
    ensures AllOnes(Seen(dividend, |divisor|, 0, w), Number(divisor, w), Number(RowOut(|divisor|, 0), w), Pow2(1))
  {
    var n, low := |divisor|, Bus(dividend, w)[..|divisor| - 1];
    FirstRowInput(dividend, n, w);
    ValBound(low);
    FirstRowTooLarge(Number(dividend, w), Val(low), Seen(dividend, n, 0, w), Number(divisor, w), n);
    RowRestores(dividend, divisor, 0, w);
  }

  lemma {:induction false} TopBitClear(dividend: seq<Net>, divisor: seq<Net>, i: nat, w: Wires)
    requires |dividend| == 2 * |divisor| - 1 && i + 1 < |divisor|
    requires JustTooLarge(Number(dividend, w), Number(divisor, w), |divisor|)
    requires AllOnes(Seen(dividend, |divisor|, i, w), Number(divisor, w), Number(RowOut(|divisor|, i), w), Pow2(i + 1))
    ensures Number(RowOut(|divisor|, i), w) % Pow2(|divisor|) == Number(RowOut(|divisor|, i), w)
  {
    var n, bs := |divisor|, Bus(dividend, w);
    assert bs == bs[..n - 1 - i] + bs[n - 1 - i..];
    ValAppend(bs[..n - 1 - i], bs[n - 1 - i..]);
    Pow2Add(i + 1, n - 1 - i);
    Pow2Monotone(1, n - 1 - i);
    ValBound(Bus(divisor, w));
    RoomLeft(Number(dividend, w), Val(bs[..n - 1 - i]), Seen(dividend, n, i, w), Number(divisor, w),
             Number(RowOut(n, i), w), Pow2(i + 1), Pow2(n - 1 - i));
    ModUnique(Number(RowOut(n, i), w), Pow2(n), 0, Number(RowOut(n, i), w));
  }

  /** The invariant of the array on such a dividend. */
  lemma {:induction false} RowsAllOnes(dividend: seq<Net>, divisor: seq<Net>, i: nat, w: Wires)
    requires |dividend| == 2 * |divisor| - 1 && i < |divisor|
    requires CellsHold(dividend, divisor, w)
    requires JustTooLarge(Number(dividend, w), Number(divisor, w), |divisor|)
    ensures AllOnes(Seen(dividend, |divisor|, i, w), Number(divisor, w), Number(RowOut(|divisor|, i), w), Pow2(i + 1))
  {
    var n, d := |divisor|, Number(divisor, w);
    if i == 0 {
      FirstRowAllOnes(dividend, divisor, w);
    } else {
      RowsAllOnes(dividend, divisor, i - 1, w);
      TopBitClear(dividend, divisor, i - 1, w);
      NextRowInput(dividend, divisor, i - 1, w);
      RowRestores(dividend, divisor, i, w);
      SeenNext(dividend, n, i, w);
      AllOnesNext(Seen(dividend, n, i - 1, w), d, Number(RowOut(n, i - 1), w), Pow2(i),
                  Bit(w(dividend[n - 1 - i])));
    }
  }

  lemma {:induction false} LastRowRest(dividend: seq<Net>, divisor: seq<Net>, w: Wires)
    requires |divisor| >= 2 && |dividend| == 2 * |divisor| - 1
    requires CellsHold(dividend, divisor, w)
    requires JustTooLarge(Number(dividend, w), Number(divisor, w), |divisor|)
    ensures AllOnes(Number(dividend, w), Number(divisor, w), Number(RowOut(|divisor|, |divisor| - 1), w),
                    Pow2(|divisor|))
  {
    RowsAllOnes(dividend, divisor, |divisor| - 1, w);
    SeenAll(dividend, |divisor|, w);
  }

  /** The array leaves what the largest quotient of n bits leaves, cut to n bits. */
  lemma {:induction false} RemainderBeyond(dividend: seq<Net>, divisor: seq<Net>, w: Wires)
    requires |divisor| >= 2 && |dividend| == 2 * |divisor| - 1
    requires AllHold(ArrayGates(dividend, divisor, |divisor|), w)
    requires JustTooLarge(Number(dividend, w), Number(divisor, w), |divisor|)
    ensures var n, dd, d := |divisor|, Number(dividend, w), Number(divisor, w);
      && dd - d * (Pow2(n) - 1) >= d
      && Number(RemainderNets(n), w) == (dd - d * (Pow2(n) - 1)) % Pow2(n)
  {
    ArrayGatesHold(dividend, divisor, |divisor|, w);
    LastRowRest(dividend, divisor, w);
    LastRowRemainder(divisor, w);
  }

  /** Such a rest is the remainder only where it is 2^n, all of which is cut off, and d divides it. */
  lemma {:induction false} RestIsWrong(dd: nat, d: nat, p: nat, rest: nat)
    requires d > 0 && rest == dd - d * (p - 1) && d <= rest <= p
    ensures rest % p == dd % d <==> rest == p && p % d == 0
  {
    var q := rest / d;
    assert rest == q * d + rest % d;
    assert dd == (q + p - 1) * d + rest % d;
    ModUnique(dd, d, q + p - 1, rest % d);
    if rest < p {
      ModUnique(rest, p, 0, rest);
    } else {
      ModUnique(rest, p, 1, 0);
    }
  }

  /** The quotient fits, or all that is left is the one bit that is cut off. */
  ghost predicate NoRest(dd: nat, d: nat, p: nat)
    requires d > 0
  {
    dd < d * p || (dd == d * (p - 1) + p && p % d == 0)
  }

  /** The remainder pins of the array, exactly. */
  lemma {:induction false} ArrayRemainderExact(dividend: seq<Net>, divisor: seq<Net>, dd: nat, d: nat, w: Wires)
    requires |divisor| >= 2 && |dividend| == 2 * |divisor| - 1
    requires AllHold(ArrayGates(dividend, divisor, |divisor|), w)
    requires dd == Number(dividend, w) && 0 < d == Number(divisor, w)
    requires dd <= d * (Pow2(|divisor|) - 1) + Pow2(|divisor|)
    ensures Number(RemainderNets(|divisor|), w) == dd % d <==> NoRest(dd, d, Pow2(|divisor|))
  {
    var p := Pow2(|divisor|);
    assert d * (p - 1) == d * p - d;
    ValBound(Bus(divisor, w));
    if dd < d * p {
      ArrayDivides(dividend, divisor, w);
    } else {
      RemainderBeyond(dividend, divisor, w);
      RestIsWrong(dd, d, p, dd - d * (p - 1));
    }
  }

  lemma {:induction false} WideOutputs(n: nat, width: nat, w: Wires)
    requires n >= 2 && width >= n
    requires AllHold(OutputGates(Modulo, width, QuotientNets(n), RemainderNets(n)), w)
    ensures Number(OutputNets(width), w) == Number(RemainderNets(n), w)
  {
    ModuloOutputs(n, width, w);
    ValBound(Bus(RemainderNets(n), w));
    Pow2Monotone(n, width);
    ModUnique(Number(RemainderNets(n), w), Pow2(width), 0, Number(RemainderNets(n), w));
  }

  /**
   * Up to d * 2^n + 2^n - d the remainder pins are right exactly when the quotient fits, or at the bound
   * itself when d divides 2^n.
   */
  lemma {:induction false} RemainderExact(m: nat, n: nat, width: nat, w: Wires)
    requires n >= 2 && m <= 2 * n - 1 && width >= n
    requires AllHold(DividerGates(Modulo, m, n, width), w) && Number(DivisorNets(n), w) > 0
    requires Number(OperandNets(m), w) <= Number(DivisorNets(n), w) * (Pow2(n) - 1) + Pow2(n)
    ensures var dd, d := Number(OperandNets(m), w), Number(DivisorNets(n), w);
      Number(OutputNets(width), w) == dd % d <==> NoRest(dd, d, Pow2(n))
  {
    var dividend, divisor := PaddedDividend(m, n), DivisorNets(n);
    AllHoldAppend(ArrayGates(dividend, divisor, n), OutputGates(Modulo, width, QuotientNets(n), RemainderNets(n)), w);
    PaddedNumber(m, n, w);
    WideOutputs(n, width, w);
    ArrayRemainderExact(dividend, divisor, Number(OperandNets(m), w), Number(DivisorNets(n), w), w);
  }
}
