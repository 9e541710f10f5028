/** Words of bits, least significant bit first, and the numbers they stand for. */
module Bits {

  function Pow2(n: nat): (p: nat)
    ensures p >= 1
  {
    if n == 0 then 1 else 2 * Pow2(n - 1)
  }

  function Pow(b: int, e: nat): int {
    if e == 0 then 1 else b * Pow(b, e - 1)
  }

  function Bit(b: bool): nat {
    if b then 1 else 0
  }

  function Val(bs: seq<bool>): nat {
    if bs == [] then 0 else Bit(bs[0]) + 2 * Val(bs[1..])
  }

  function Zeros(n: nat): (z: seq<bool>)
    ensures |z| == n && forall k :: 0 <= k < n ==> !z[k]
  {
    seq(n, _ => false)
  }

  lemma {:induction false} Pow2Add(m: nat, n: nat)
    ensures Pow2(m + n) == Pow2(m) * Pow2(n)
  {
    if m > 0 {
      Pow2Add(m - 1, n);
      assert Pow2(m) * Pow2(n) == 2 * (Pow2(m - 1) * Pow2(n));
    }
  }

  lemma {:induction false} Pow2Monotone(m: nat, n: nat)
    requires m <= n
    ensures Pow2(m) <= Pow2(n)
  {
    Pow2Add(m, n - m);
    assert Pow2(m) * 1 <= Pow2(m) * Pow2(n - m);
  }

  lemma {:induction false} ValBound(bs: seq<bool>)
    ensures Val(bs) < Pow2(|bs|)
  {
    if bs != [] {
      ValBound(bs[1..]);
    }
  }

  lemma {:induction false} ValAppend(a: seq<bool>, b: seq<bool>)
    ensures Val(a + b) == Val(a) + Pow2(|a|) * Val(b)
  {
    if a == [] {
      assert a + b == b;
    } else {
      ValAppend(a[1..], b);
      assert (a + b)[1..] == a[1..] + b;
      assert 2 * (Pow2(|a| - 1) * Val(b)) == Pow2(|a|) * Val(b);
    }
  }

  lemma {:induction false} ValSnoc(a: seq<bool>, b: bool)
    ensures Val(a + [b]) == Val(a) + Pow2(|a|) * Bit(b)
  {
    ValAppend(a, [b]);
    assert Val([b]) == Bit(b);
  }

  /** The prefix form of ValSnoc: one more bit of the same word. */
  lemma {:induction false} ValTakeStep(bs: seq<bool>, k: nat)
    requires k < |bs|
    ensures Val(bs[..k + 1]) == Val(bs[..k]) + Pow2(k) * Bit(bs[k])
  {
    assert bs[..k + 1] == bs[..k] + [bs[k]];
    ValSnoc(bs[..k], bs[k]);
  }

  lemma {:induction false} ValZeros(bs: seq<bool>)
    requires forall k :: 0 <= k < |bs| ==> !bs[k]
    ensures Val(bs) == 0
  {
    if bs != [] {
      ValZeros(bs[1..]);
    }
  }

  lemma {:induction false} ValPadded(a: seq<bool>, n: nat)
    ensures Val(a + Zeros(n)) == Val(a)
  {
    ValZeros(Zeros(n));
    ValAppend(a, Zeros(n));
  }

  lemma {:induction false} MulSign(k: int, m: int)
    requires m > 0
    ensures k >= 1 ==> k * m >= m
    ensures k <= -1 ==> k * m <= -m
  {
  }

  lemma {:induction false} ModUnique(x: int, m: int, q: int, r: int)
    requires m > 0 && 0 <= r < m && x == q * m + r
    ensures x / m == q && x % m == r
  {
    assert x == (x / m) * m + x % m;
    var dq := x / m - q;
    assert dq * m == r - x % m;
    MulSign(dq, m);
  }

  lemma {:induction false} MulCommutes(x: int, y: int)
    ensures x * y == y * x
  {
  }

  lemma {:induction false} ValTakeMod(bs: seq<bool>, k: nat)
    requires k <= |bs|
    ensures Val(bs[..k]) == Val(bs) % Pow2(k)
  {
    var lo, hi := bs[..k], bs[k..];
    assert bs == lo + hi;
    ValAppend(lo, hi);
    ValBound(lo);
    MulCommutes(Pow2(k), Val(hi));
    ModUnique(Val(bs), Pow2(k), Val(hi), Val(lo));
  }

  /** A word zero-extended or truncated to another width keeps its value modulo that width. */
  lemma {:induction false} ValFitted(to: seq<bool>, from: seq<bool>)
    requires forall k :: 0 <= k < |to| ==> to[k] == (k < |from| && from[k])
    ensures Val(to) == Val(from) % Pow2(|to|)
  {
    if |to| <= |from| {
      assert to == from[..|to|];
      ValTakeMod(from, |to|);
    } else {
      assert to == from + Zeros(|to| - |from|);
      ValPadded(from, |to| - |from|);
      ValBound(to);
      ModUnique(Val(to), Pow2(|to|), 0, Val(to));
    }
  }

  lemma {:induction false} ValInjective(a: seq<bool>, b: seq<bool>)
    requires |a| == |b| && Val(a) == Val(b)
    ensures a == b
  {
    if a != [] {
      assert Val(a) % 2 == Bit(a[0]) && Val(b) % 2 == Bit(b[0]);
      ValInjective(a[1..], b[1..]);
      assert a == [a[0]] + a[1..] && b == [b[0]] + b[1..];
    }
  }

  /** The word holding n modulo 2^width. */
  function Word(n: nat, width: nat): (bs: seq<bool>)
    ensures |bs| == width
  {
    if width == 0 then [] else [n % 2 == 1] + Word(n / 2, width - 1)
  }

  lemma {:induction false} ValWord(n: nat, width: nat)
    requires n < Pow2(width)
    ensures Val(Word(n, width)) == n
  {
    if width > 0 {
      ValWord(n / 2, width - 1);
      assert Word(n, width)[1..] == Word(n / 2, width - 1);
    }
  }
}
