/** Bitwise `|` and `^` on unsigned numbers, and what folding them says about
    each single bit. */
module Bits {
  import opened Bytes
  import opened Folds

  /** Bit i of v, counted from the lowest. */
  function BitOf(v: nat, i: nat): (b: nat)
    ensures b <= 1
    decreases i
  {
    if i == 0 then v % 2 else BitOf(v / 2, i - 1)
  }

  function Bit(exclusive: bool, x: nat, y: nat): (b: nat)
    requires x <= 1 && y <= 1
    ensures b <= 1
  {
    if exclusive then (x + y) % 2 else if x + y > 0 then 1 else 0
  }

  /** `a ^ b` or `a | b`, digit by digit. */
  function Bitwise(exclusive: bool, a: nat, b: nat): nat {
    if a == 0 then b
    else if b == 0 then a
    else Bit(exclusive, a % 2, b % 2) + 2 * Bitwise(exclusive, a / 2, b / 2)
  }

  lemma {:induction false} BitwiseBit(exclusive: bool, a: nat, b: nat, i: nat)
    ensures BitOf(Bitwise(exclusive, a, b), i) == Bit(exclusive, BitOf(a, i), BitOf(b, i))
    decreases i
  {
    ZeroBits(i);
    if i > 0 && a != 0 && b != 0 {
      BitwiseBit(exclusive, a / 2, b / 2, i - 1);
    }
  }

  lemma {:induction false} ZeroBits(i: nat)
    ensures BitOf(0, i) == 0
  {
    if i > 0 {
      ZeroBits(i - 1);
    }
  }

  function Pow2(k: nat): (p: nat)
    ensures 1 <= p
  {
    if k == 0 then 1 else 2 * Pow2(k - 1)
  }

  lemma {:induction false} Pow2OfBytes(w: nat)
    ensures Pow2(8 * w) == Pow256(w)
  {
    if w > 0 {
      Pow2OfBytes(w - 1);
      assert Pow2(8 * w - 4) == 16 * Pow2(8 * (w - 1)) by {
        assert Pow2(8 * w - 6) == 4 * Pow2(8 * (w - 1));
      }
      assert Pow2(8 * w - 2) == 4 * Pow2(8 * w - 4);
    }
  }

  ghost predicate HighZero(v: nat, k: nat) {
    forall i: nat :: k <= i ==> BitOf(v, i) == 0
  }

  /** A number fits k bits exactly when all higher bits are zero. */
  lemma {:induction false} FitsBits(v: nat, k: nat)
    ensures v < Pow2(k) <==> HighZero(v, k)
  {
    if k > 0 {
      FitsBits(v / 2, k - 1);
      HalfBits(v, k);
    } else if v > 0 {
      var i := TopBit(v);
    } else {
      forall i: nat
        ensures BitOf(v, i) == 0
      {
        ZeroBits(i);
      }
    }
  }

  lemma HalfBits(v: nat, k: nat)
    requires 1 <= k
    ensures HighZero(v, k) <==> HighZero(v / 2, k - 1)
  {
    if HighZero(v, k) {
      forall i: nat | k - 1 <= i
        ensures BitOf(v / 2, i) == 0
      {
        assert BitOf(v, i + 1) == BitOf(v / 2, i);
      }
    } else {
      var i: nat :| k <= i && BitOf(v, i) != 0;
      assert BitOf(v / 2, i - 1) != 0;
    }
  }

  lemma {:induction false} TopBit(v: nat) returns (i: nat)
    requires v > 0
    ensures BitOf(v, i) == 1
  {
    if v % 2 == 1 {
      i := 0;
    } else {
      i := TopBit(v / 2);
      i := i + 1;
    }
  }

  /** Numbers are determined by their bits. */
  lemma {:induction false} SameBits(a: nat, b: nat)
    requires forall i: nat :: BitOf(a, i) == BitOf(b, i)
    ensures a == b
  {
    assert BitOf(a, 0) == BitOf(b, 0);
    if a + b > 0 {
      forall i: nat
        ensures BitOf(a / 2, i) == BitOf(b / 2, i)
      {
        assert BitOf(a, i + 1) == BitOf(b, i + 1);
      }
      SameBits(a / 2, b / 2);
    }
  }

  /** How many of the values have bit i set. */
  function Setters(vs: seq<u64>, i: nat): nat {
    Count(vs, (v: u64) => BitOf(v, i) == 1)
  }

  /** Folding with `^` leaves a bit set iff an odd number of values have it, with
      `|` iff at least one does. */
  ghost predicate BitsMean(exclusive: bool, vs: seq<u64>, x: nat) {
    forall i: nat :: BitOf(x, i) == FoldedBit(exclusive, Setters(vs, i))
  }

  function FoldedBit(exclusive: bool, setters: nat): nat {
    if exclusive then setters % 2 else if setters > 0 then 1 else 0
  }

  lemma NothingFolded(exclusive: bool)
    ensures BitsMean(exclusive, [], 0)
  {
    forall i: nat
      ensures BitOf(0, i) == FoldedBit(exclusive, Setters([], i))
    {
      ZeroBits(i);
    }
  }

  lemma OneMoreFolded(exclusive: bool, vs: seq<u64>, acc: nat, v: u64)
    requires BitsMean(exclusive, vs, acc)
    ensures BitsMean(exclusive, vs + [v], Bitwise(exclusive, acc, v))
  {
    hide BitOf, Bitwise, Setters;
    forall i: nat
      ensures BitOf(Bitwise(exclusive, acc, v), i) == FoldedBit(exclusive, Setters(vs + [v], i))
    {
      BitwiseBit(exclusive, acc, v, i);
      assert BitOf(acc, i) == FoldedBit(exclusive, Setters(vs, i));
      SettersSnoc(vs, v, i);
    }
  }

  lemma SettersSnoc(vs: seq<u64>, v: u64, i: nat)
    ensures Setters(vs + [v], i) == Setters(vs, i) + BitOf(v, i)
  {
    assert (vs + [v])[..|vs|] == vs;
  }

  /** A fold does not need more bytes than the values it folds. */
  lemma FoldFits(exclusive: bool, vs: seq<u64>, x: nat, w: nat)
    requires BitsMean(exclusive, vs, x) && forall k :: 0 <= k < |vs| ==> vs[k] < Pow256(w)
    ensures x < Pow256(w)
  {
    Pow2OfBytes(w);
    FitsBits(x, 8 * w);
    forall i: nat | 8 * w <= i
      ensures BitOf(x, i) == 0
    {
      NoSetters(vs, i, w);
      assert BitOf(x, i) == FoldedBit(exclusive, Setters(vs, i));
    }
  }

  lemma {:induction false} FoldExists(exclusive: bool, vs: seq<u64>) returns (x: u64)
    ensures BitsMean(exclusive, vs, x)
  {
    hide BitsMean;
    if vs == [] {
      NothingFolded(exclusive);
      x := 0;
    } else {
      var n := |vs| - 1;
      var acc := FoldExists(exclusive, vs[..n]);
      OneMoreFolded(exclusive, vs[..n], acc, vs[n]);
      assert vs == vs[..n] + [vs[n]];
      WidthBounds();
      FoldFits(exclusive, vs, Bitwise(exclusive, acc, vs[n]), 8);
      x := Bitwise(exclusive, acc, vs[n]);
    }
  }

  lemma {:induction false} NoSetters(vs: seq<u64>, i: nat, w: nat)
    requires 8 * w <= i && forall k :: 0 <= k < |vs| ==> vs[k] < Pow256(w)
    ensures Setters(vs, i) == 0
  {
    if vs != [] {
      var n := |vs| - 1;
      NoSetters(vs[..n], i, w);
      Pow2OfBytes(w);
      FitsBits(vs[n], 8 * w);
      assert vs[n] < Pow256(w) && BitOf(vs[n], i) == 0;
    }
  }

  /** The fold does not depend on the order of the values. */
  lemma FoldOrderFree(exclusive: bool, vs: seq<u64>, us: seq<u64>, x: nat, y: nat)
    requires multiset(vs) == multiset(us) && BitsMean(exclusive, vs, x) && BitsMean(exclusive, us, y)
    ensures x == y
  {
    forall i: nat
      ensures BitOf(x, i) == BitOf(y, i)
    {
      CountPermutation(vs, us, (v: u64) => BitOf(v, i) == 1);
      assert Setters(vs, i) == Setters(us, i);
    }
    SameBits(x, y);
  }

  /** A bit of an `or` is set iff some value has it. */
  lemma OrBits(vs: seq<u64>, x: nat, i: nat)
    requires BitsMean(false, vs, x)
    ensures BitOf(x, i) == 1 <==> exists k :: 0 <= k < |vs| && BitOf(vs[k], i) == 1
  {
    CountPositive(vs, (v: u64) => BitOf(v, i) == 1);
    assert BitOf(x, i) == FoldedBit(false, Setters(vs, i));
  }

  /** The `xor` of nothing is zero, and one more value flips exactly its own bits. */
  lemma XorBits(vs: seq<u64>, v: u64, x: nat, y: nat, i: nat)
    requires BitsMean(true, vs, x) && BitsMean(true, vs + [v], y)
    ensures vs == [] ==> x == 0
    ensures BitOf(y, i) == if BitOf(v, i) == 1 then 1 - BitOf(x, i) else BitOf(x, i)
  {
    hide BitOf, Setters, BitsMean;
    if vs == [] {
      NothingFolded(true);
      FoldOrderFree(true, [], vs, 0, x);
    }
    SettersSnoc(vs, v, i);
    FoldedAt(true, vs, x, i);
    FoldedAt(true, vs + [v], y, i);
  }

  lemma FoldedAt(exclusive: bool, vs: seq<u64>, x: nat, i: nat)
    requires BitsMean(exclusive, vs, x)
    ensures BitOf(x, i) == FoldedBit(exclusive, Setters(vs, i))
  {
  }
}
