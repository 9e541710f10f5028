/** Cubes of literals, two bits each, packed into 32-bit words. */
module Cube {

  datatype Literal = Bad | Zero | One | Two

  function Decode(pair: bv32): Literal {
    if pair == 1 then Zero else if pair == 2 then One else if pair == 3 then Two else Bad
  }

  // ----- words and bits -----

  function WhichWord(e: nat): nat {
    e / 32 + 1
  }

  function SetSize(size: nat): nat {
    if size <= 32 then 2 else WhichWord(size - 1) + 1
  }

  /** The bit number 2q, as a shift amount. */
  function PairBit(q: nat): bv32 {
    if q == 0 then 0 else PairBit(q - 1) + 2
  }

  /** Shift amounts behave like the numbers they stand for. */
  lemma {:induction false} PairBits(p: nat, q: nat)
    requires p < 16 && q < 16
    ensures PairBit(p) < 31 && PairBit(p) & 1 == 0
    ensures PairBit(p) == PairBit(q) ==> p == q
  {
    assert PairBit(0) == 0 && PairBit(1) == 2 && PairBit(2) == 4 && PairBit(3) == 6;
    assert PairBit(4) == 8 && PairBit(5) == 10 && PairBit(6) == 12 && PairBit(7) == 14;
    assert PairBit(8) == 16 && PairBit(9) == 18 && PairBit(10) == 20 && PairBit(11) == 22;
    assert PairBit(12) == 24 && PairBit(13) == 26 && PairBit(14) == 28 && PairBit(15) == 30;
  }

  /** The element number modulo 32. */
  function WhichBit(e: nat): (b: bv32)
    ensures b < 32
  {
    PairBits(e / 2 % 16, 0);
    if e % 2 == 0 then PairBit(e / 2 % 16) else PairBit(e / 2 % 16) + 1
  }

  function WithBit(w: bv32, s: bv32): bv32
    requires s < 32
  {
    w | (1 << s)
  }

  function WithoutBit(w: bv32, s: bv32): bv32
    requires s < 32
  {
    w & !(1 << s)
  }

  function PairAt(w: bv32, s: bv32): bv32
    requires s < 32
  {
    (w >> s) & 3
  }

  lemma {:induction false} SettingBit(w: bv32, r: bv32)
    requires r < 31 && r & 1 == 0
    ensures PairAt(WithBit(w, r), r) == PairAt(w, r) | 1 && PairAt(WithBit(w, r + 1), r) == PairAt(w, r) | 2
  {
  }

  lemma {:induction false} ClearingBit(w: bv32, r: bv32)
    requires r < 31 && r & 1 == 0
    ensures PairAt(WithoutBit(w, r), r) == PairAt(w, r) & 2 && PairAt(WithoutBit(w, r + 1), r) == PairAt(w, r) & 1
  {
  }

  lemma {:induction false} BitKeepsPair(w: bv32, s: bv32, r: bv32)
    requires s < 32 && r < 31 && r & 1 == 0 && (s >> 1) != (r >> 1)
    ensures PairAt(WithBit(w, s), r) == PairAt(w, r) && PairAt(WithoutBit(w, s), r) == PairAt(w, r)
  {
  }

  lemma {:induction false} OtherPairKept(w: bv32, s: bv32, r: bv32)
    requires s < 31 && s & 1 == 0 && r < 31 && r & 1 == 0 && s != r
    ensures PairAt(WithBit(w, s), r) == PairAt(w, r) && PairAt(WithBit(w, s + 1), r) == PairAt(w, r)
    ensures PairAt(WithoutBit(w, s), r) == PairAt(w, r) && PairAt(WithoutBit(w, s + 1), r) == PairAt(w, r)
  {
    BitKeepsPair(w, s, r);
    BitKeepsPair(w, s + 1, r);
  }

  /** The pair of literal q within its word. */
  function Pair(w: bv32, q: nat): bv32 {
    PairBits(q % 16, 0);
    PairAt(w, PairBit(q % 16))
  }

  lemma {:induction false} WhichBits(e: nat) returns (s: bv32)
    ensures s == PairBit(e / 2 % 16) && s < 31 && s & 1 == 0
    ensures WhichBit(e) == if e % 2 == 0 then s else s + 1
  {
    s := PairBit(e / 2 % 16);
    PairBits(e / 2 % 16, 0);
  }

  lemma {:induction false} SamePair(w: bv32, b: bv32, r: bv32, odd: bool)
    requires r < 31 && r & 1 == 0 && b == if odd then r + 1 else r
    ensures PairAt(WithBit(w, b), r) == PairAt(w, r) | (if odd then 2 else 1)
    ensures PairAt(WithoutBit(w, b), r) == PairAt(w, r) & (if odd then 1 else 2)
  {
    SettingBit(w, r);
    ClearingBit(w, r);
  }

  lemma {:induction false} OtherPair(w: bv32, b: bv32, s: bv32, r: bv32, odd: bool)
    requires s < 31 && s & 1 == 0 && r < 31 && r & 1 == 0 && s != r && b == if odd then s + 1 else s
    ensures PairAt(WithBit(w, b), r) == PairAt(w, r) && PairAt(WithoutBit(w, b), r) == PairAt(w, r)
  {
    OtherPairKept(w, s, r);
  }

  lemma {:induction false} SameWordBit(w: bv32, e: nat, q: nat)
    requires e / 2 % 16 == q % 16
    ensures Pair(WithBit(w, WhichBit(e)), q) == Pair(w, q) | (if e % 2 == 0 then 1 else 2)
    ensures Pair(WithoutBit(w, WhichBit(e)), q) == Pair(w, q) & (if e % 2 == 0 then 2 else 1)
  {
    var s := WhichBits(e);
    SamePair(w, WhichBit(e), s, e % 2 == 1);
  }

  lemma {:induction false} OtherPlace(p: nat, q: nat) returns (r: bv32)
    requires p < 16 && p != q % 16
    ensures r == PairBit(q % 16) && r < 31 && r & 1 == 0 && r != PairBit(p)
    ensures forall w :: Pair(w, q) == PairAt(w, r)
  {
    r := PairBit(q % 16);
    PairBits(p, q % 16);
    PairBits(q % 16, 0);
  }

  lemma {:induction false} OtherWordBit(w: bv32, e: nat, q: nat)
    requires e / 2 % 16 != q % 16
    ensures Pair(WithBit(w, WhichBit(e)), q) == Pair(w, q)
    ensures Pair(WithoutBit(w, WhichBit(e)), q) == Pair(w, q)
  {
    var b := WhichBit(e);
    var s := WhichBits(e);
    var r := OtherPlace(e / 2 % 16, q);
    OtherPair(w, b, s, r, e % 2 == 1);
  }

  lemma {:induction false} SixteenSplit(h: nat)
    ensures h == 16 * (h / 16) + h % 16
  {
  }

  lemma {:induction false} RemainderOf32(e: nat, q: nat, r: nat)
    requires e == 32 * q + r && r < 32
    ensures e % 32 == r
  {
  }

  lemma {:induction false} SplitMod(e: nat)
    ensures e % 32 == 2 * (e / 2 % 16) + e % 2
  {
    SixteenSplit(e / 2);
    RemainderOf32(e, e / 2 / 16, 2 * (e / 2 % 16) + e % 2);
  }

  lemma {:induction false} OneMore(s: bv32)
    requires s < 31
    ensures (s + 1) as nat == s as nat + 1
  {
  }

  lemma {:induction false} PairBitIsDouble(q: nat)
    requires q < 16
    ensures PairBit(q) as nat == 2 * q
  {
    assert PairBit(3) == 6 && PairBit(6) == 12 && PairBit(9) == 18 && PairBit(12) == 24 && PairBit(15) == 30;
  }

  lemma {:induction false} ShiftIsDouble(q: nat, s: bv32)
    requires q < 16 && s == PairBit(q)
    ensures s as nat == 2 * q
  {
    PairBitIsDouble(q);
  }

  /** Shift amounts stand for the element number modulo 32. */
  lemma {:induction false} WhichBitIsMod(e: nat)
    ensures WhichBit(e) as nat == e % 32
  {
    var s := WhichBits(e);
    ShiftIsDouble(e / 2 % 16, s);
    SplitMod(e);
    if e % 2 == 1 {
      OneMore(s);
    }
  }

  // ----- sets of elements -----

  /** The two bits at position pos. */
  function InputAt(ws: seq<bv32>, pos: nat): bv32
    requires WhichWord(2 * pos) < |ws|
  {
    Pair(ws[WhichWord(2 * pos)], pos)
  }

  /** The word of an element depends on the literal it belongs to: there are 16 of them in a word. */
  lemma {:induction false} WordOfLiteral(e: nat)
    ensures WhichWord(e) == e / 2 / 16 + 1
  {
  }

  lemma {:induction false} Placement(e: nat, q: nat)
    ensures WhichWord(2 * q) == WhichWord(e) ==> (e / 2 % 16 == q % 16 <==> q == e / 2)
    ensures q == e / 2 ==> WhichWord(2 * q) == WhichWord(e)
  {
    WordOfLiteral(e);
    WordOfLiteral(2 * q);
    assert 2 * q / 2 == q;
    SixteenSplit(e / 2);
    SixteenSplit(q);
  }

  lemma {:induction false} InsertedAt(ws: seq<bv32>, e: nat, q: nat)
    requires WhichWord(2 * q) < |ws| && WhichWord(e) < |ws|
    ensures InputAt(ws[WhichWord(e) := WithBit(ws[WhichWord(e)], WhichBit(e))], q) ==
      if q == e / 2 then InputAt(ws, q) | (if e % 2 == 0 then 1 else 2) else InputAt(ws, q)
  {
    Placement(e, q);
    if q == e / 2 {
      SameWordBit(ws[WhichWord(e)], e, q);
    } else if WhichWord(2 * q) == WhichWord(e) {
      OtherWordBit(ws[WhichWord(e)], e, q);
    }
  }

  lemma {:induction false} RemovedAt(ws: seq<bv32>, e: nat, q: nat)
    requires WhichWord(2 * q) < |ws| && WhichWord(e) < |ws|
    ensures InputAt(ws[WhichWord(e) := WithoutBit(ws[WhichWord(e)], WhichBit(e))], q) ==
      if q == e / 2 then InputAt(ws, q) & (if e % 2 == 0 then 2 else 1) else InputAt(ws, q)
  {
    Placement(e, q);
    if q == e / 2 {
      SameWordBit(ws[WhichWord(e)], e, q);
    } else if WhichWord(2 * q) == WhichWord(e) {
      OtherWordBit(ws[WhichWord(e)], e, q);
    }
  }

  // ----- cubes -----

  /** The words of a cube of n literals. */
  ghost predicate Holds(ws: seq<bv32>, n: nat) {
    |ws| == SetSize(2 * n)
  }

  lemma {:induction false} WordsSuffice(ws: seq<bv32>, n: nat, e: nat)
    requires Holds(ws, n) && e < 2 * n
    ensures WhichWord(e) < |ws|
  {
  }

  ghost function Literals(ws: seq<bv32>, n: nat): (r: seq<Literal>)
    requires Holds(ws, n)
    ensures |r| == n
    ensures forall pos :: 0 <= pos < n ==> WhichWord(2 * pos) < |ws| && r[pos] == Decode(InputAt(ws, pos))
  {
    forall pos | 0 <= pos < n ensures WhichWord(2 * pos) < |ws| { WordsSuffice(ws, n, 2 * pos); }
    seq(n, pos requires 0 <= pos < n => Decode(InputAt(ws, pos)))
  }

  /** What inserting element 2k (not odd) or 2k+1 (odd) makes of literal k. */
  function Inserted(l: Literal, odd: bool): Literal {
    if odd then (if l == Bad || l == One then One else Two) else (if l == Bad || l == Zero then Zero else Two)
  }

  function Removed(l: Literal, odd: bool): Literal {
    if odd then (if l == Zero || l == Two then Zero else Bad) else (if l == One || l == Two then One else Bad)
  }

  lemma {:induction false} DecodeBits(pair: bv32)
    requires pair < 4
    ensures Decode(pair | 1) == Inserted(Decode(pair), false) && Decode(pair | 2) == Inserted(Decode(pair), true)
    ensures Decode(pair & 2) == Removed(Decode(pair), false) && Decode(pair & 1) == Removed(Decode(pair), true)
  {
  }

  lemma {:induction false} PairIsSmall(w: bv32, q: nat)
    ensures Pair(w, q) < 4
  {
  }

  lemma {:induction false} InsertLiteral(ws: seq<bv32>, n: nat, e: nat)
    requires Holds(ws, n) && e < 2 * n && WhichWord(e) < |ws|
    ensures var ws' := ws[WhichWord(e) := WithBit(ws[WhichWord(e)], WhichBit(e))];
      Literals(ws', n) == Literals(ws, n)[e / 2 := Inserted(Literals(ws, n)[e / 2], e % 2 == 1)]
  {
    forall q | 0 <= q < n
      ensures WhichWord(2 * q) < |ws|
      ensures Decode(InputAt(ws[WhichWord(e) := WithBit(ws[WhichWord(e)], WhichBit(e))], q)) ==
        if q == e / 2 then Inserted(Decode(InputAt(ws, q)), e % 2 == 1) else Decode(InputAt(ws, q))
    {
      WordsSuffice(ws, n, 2 * q);
      InsertedAt(ws, e, q);
      PairIsSmall(ws[WhichWord(2 * q)], q);
      DecodeBits(InputAt(ws, q));
    }
  }

  lemma {:induction false} RemoveLiteral(ws: seq<bv32>, n: nat, e: nat)
    requires Holds(ws, n) && e < 2 * n && WhichWord(e) < |ws|
    ensures var ws' := ws[WhichWord(e) := WithoutBit(ws[WhichWord(e)], WhichBit(e))];
      Literals(ws', n) == Literals(ws, n)[e / 2 := Removed(Literals(ws, n)[e / 2], e % 2 == 1)]
  {
    forall q | 0 <= q < n
      ensures WhichWord(2 * q) < |ws|
      ensures Decode(InputAt(ws[WhichWord(e) := WithoutBit(ws[WhichWord(e)], WhichBit(e))], q)) ==
        if q == e / 2 then Removed(Decode(InputAt(ws, q)), e % 2 == 1) else Decode(InputAt(ws, q))
    {
      WordsSuffice(ws, n, 2 * q);
      RemovedAt(ws, e, q);
      PairIsSmall(ws[WhichWord(2 * q)], q);
      DecodeBits(InputAt(ws, q));
    }
  }

  class PackedCube {
    const words: array<bv32>
    const numLiterals: nat
    var staticProb: real

    ghost predicate Valid()
      reads words
    {
      Holds(words[..], numLiterals)
    }

    ghost function Value(): (r: seq<Literal>)
      requires Valid()
      reads words
      ensures |r| == numLiterals
    {
      Literals(words[..], numLiterals)
    }

    /** Storage for n literals, holding whatever was there before. */
    constructor Unset(n: nat)
      ensures Valid() && numLiterals == n && fresh(words)
    {
      numLiterals := n;
      words := new bv32[SetSize(2 * n)];
      staticProb := 1.0;
    }

    method NodeGetLiteral(pos: nat) returns (l: Literal)
      requires Valid() && pos < numLiterals
      ensures l == Value()[pos]
    {
      WordsSuffice(words[..], numLiterals, 2 * pos);
      l := Decode(Pair(words[WhichWord(2 * pos)], pos));
    }

    method SetInsert(e: nat)
      requires Valid() && e < 2 * numLiterals
      modifies words
      ensures Valid() && Value() == old(Value())[e / 2 := Inserted(old(Value())[e / 2], e % 2 == 1)]
    {
      WordsSuffice(words[..], numLiterals, e);
      InsertLiteral(words[..], numLiterals, e);
      words[WhichWord(e)] := WithBit(words[WhichWord(e)], WhichBit(e));
    }

    method SetRemove(e: nat)
      requires Valid() && e < 2 * numLiterals
      modifies words
      ensures Valid() && Value() == old(Value())[e / 2 := Removed(old(Value())[e / 2], e % 2 == 1)]
    {
      WordsSuffice(words[..], numLiterals, e);
      RemoveLiteral(words[..], numLiterals, e);
      words[WhichWord(e)] := WithoutBit(words[WhichWord(e)], WhichBit(e));
    }

    /** Writes a literal over whatever the position held. */
    method CopyLiteral(pos: nat, l: Literal)
      requires Valid() && pos < numLiterals && l != Bad
      modifies words
      ensures Valid() && Value() == old(Value())[pos := l]
    {
      ghost var was := Value();
      match l {
        case Zero =>
          SetInsert(2 * pos);
          SetRemove(2 * pos + 1);
        case One =>
          SetRemove(2 * pos);
          SetInsert(2 * pos + 1);
        case Two =>
          SetInsert(2 * pos);
          SetInsert(2 * pos + 1);
      }
      assert Value() == was[pos := l];
    }

    /** A copy that shares no storage; null if some literal is bad. */
    method Dup() returns (copy: PackedCube?)
      requires Valid() && numLiterals > 0
      ensures copy == null <==> Bad in Value()
      ensures copy != null ==> copy.Valid() && copy.numLiterals == numLiterals && copy.Value() == Value()
      ensures copy != null ==> fresh(copy) && fresh(copy.words) && copy.staticProb == staticProb
    {
      var cube := new PackedCube.Unset(numLiterals);
      cube.staticProb := staticProb;
      var i := 0;
      while i < numLiterals
        invariant 0 <= i <= numLiterals && cube.Valid() && fresh(cube.words)
        invariant cube.Value()[..i] == Value()[..i] && Bad !in Value()[..i]
        modifies cube.words
      {
        var l := NodeGetLiteral(i);
        if l == Bad {
          return null;
        }
        cube.CopyLiteral(i, l);
        assert cube.Value()[i] == l;
        i := i + 1;
      }
      assert cube.Value() == cube.Value()[..i] && Value() == Value()[..i];
      copy := cube;
    }

    /** The cube that says nothing about any of its inputs. */
    static method NewDc(n: nat) returns (cube: PackedCube)
      ensures fresh(cube) && fresh(cube.words) && cube.Valid() && cube.numLiterals == n && cube.staticProb == 1.0
      ensures forall k :: 0 <= k < n ==> cube.Value()[k] == Two
    {
      cube := new PackedCube.Unset(n);
      cube.staticProb := 1.0;
      var i := 0;
      while i < n
        invariant 0 <= i <= n && cube.Valid()
        invariant forall k :: 0 <= k < i ==> cube.Value()[k] == Two
        modifies cube.words
      {
        cube.SetInsert(2 * i);
        cube.SetInsert(2 * i + 1);
        i := i + 1;
      }
    }
  }
}
