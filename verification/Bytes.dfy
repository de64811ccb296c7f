/** Memory as the engine sees it: byte sequences, little-endian loads and stores
    of 1, 2, 4 or 8 bytes, and the wrap-around of `uint64_t` arithmetic. */
module Bytes {

  type byte = x: int | 0 <= x < 256

  const TWO_64: nat := 0x1_0000_0000_0000_0000
  const TWO_32: nat := 0x1_0000_0000

  type u64 = x: nat | x < TWO_64

  /** Bytes in a `uint8_t`, `uint16_t`, `uint32_t` or `uint64_t`. */
  type Width = w: nat | w == 1 || w == 2 || w == 4 || w == 8 witness 1

  /** A field of a record: where it starts and how wide it is. */
  datatype Field = Field(off: nat, w: Width) {
    predicate Inside(size: nat) { off + w <= size }

    predicate Apart(other: Field) { off + w <= other.off || other.off + other.w <= off }
  }

  function Pow256(w: nat): (p: nat)
    ensures 1 <= p
  {
    if w == 0 then 1 else 256 * Pow256(w - 1)
  }

  lemma WidthBounds()
    ensures Pow256(1) == 0x100 && Pow256(2) == 0x1_0000
    ensures Pow256(4) == TWO_32 && Pow256(8) == TWO_64
  {
    assert Pow256(2) == 256 * Pow256(1);
    assert Pow256(3) == 256 * Pow256(2);
    assert Pow256(4) == 256 * Pow256(3);
    assert Pow256(5) == 256 * Pow256(4);
    assert Pow256(6) == 256 * Pow256(5);
    assert Pow256(7) == 256 * Pow256(6);
    assert Pow256(8) == 256 * Pow256(7);
  }

  function ByteAt(b: seq<byte>, i: nat): byte {
    if i < |b| then b[i] else 0
  }

  /** The unsigned number held by `w` bytes from `off` on. */
  function Load(b: seq<byte>, off: nat, w: nat): (v: nat)
    ensures v < Pow256(w)
    decreases w
  {
    if w == 0 then 0 else ByteAt(b, off) + 256 * Load(b, off + 1, w - 1)
  }

  function LoadField(b: seq<byte>, f: Field): (v: u64)
    ensures v < Pow256(f.w)
  {
    WidthBounds();
    Load(b, f.off, f.w)
  }

  /** `*(uintN_t *)(b + off) = (uintN_t) v`. */
  function Store(b: seq<byte>, off: nat, w: nat, v: nat): (b': seq<byte>)
    requires off + w <= |b|
    ensures |b'| == |b|
    ensures forall i :: 0 <= i < |b| && !(off <= i < off + w) ==> b'[i] == b[i]
    decreases w
  {
    if w == 0 then b else Store(b[off := v % 256], off + 1, w - 1, v / 256)
  }

  function StoreField(b: seq<byte>, f: Field, v: nat): (b': seq<byte>)
    requires f.Inside(|b|)
    ensures |b'| == |b|
  {
    Store(b, f.off, f.w, v)
  }

  /** Byte i of a field is digit i of its number, the lowest first: loads are
      little-endian. */
  lemma {:induction false} LoadDigits(b: seq<byte>, off: nat, w: nat, i: nat)
    requires i < w && off + w <= |b|
    ensures Load(b, off, w) / Pow256(i) % 256 == b[off + i]
    decreases w
  {
    var v, rest := Load(b, off, w), Load(b, off + 1, w - 1);
    if i == 0 {
      assert Pow256(0) == 1 && v / 1 == v;
      ModUnique(v, 256, rest, b[off]);
    } else {
      LoadDigits(b, off + 1, w - 1, i - 1);
      DivTwice(v, Pow256(i - 1));
      DivUnique(v, 256, rest, b[off]);
    }
  }

  lemma DivTwice(v: nat, p: nat)
    requires 1 <= p
    ensures v / (256 * p) == v / 256 / p
  {
    var q, m := v / 256 / p, v / 256 % p;
    var r := v % 256 + 256 * m;
    assert v == 256 * (p * q + m) + v % 256;
    assert v == (256 * p) * q + r by {
      assert 256 * (p * q) == (256 * p) * q;
    }
    assert 0 <= r < 256 * p;
    DivUnique(v, 256 * p, q, r);
  }

  lemma DivUnique(v: int, n: int, q: int, r: int)
    requires 0 <= r < n && v == n * q + r
    ensures v / n == q
  {
    var q', r' := v / n, v % n;
    assert n * (q' - q) == r - r';
    MulAtLeast(n, q' - q);
  }

  lemma {:induction false} LoadFrame(b: seq<byte>, c: seq<byte>, off: nat, w: nat)
    requires forall i :: off <= i < off + w ==> ByteAt(b, i) == ByteAt(c, i)
    ensures Load(b, off, w) == Load(c, off, w)
    decreases w
  {
    if w != 0 {
      LoadFrame(b, c, off + 1, w - 1);
    }
  }

  lemma ModStep(v: nat, p: nat)
    requires 1 <= p
    ensures v % (256 * p) == v % 256 + 256 * ((v / 256) % p)
  {
    var q, m := (v / 256) / p, (v / 256) % p;
    var s := v % 256 + 256 * m;
    assert v == 256 * (q * p + m) + v % 256;
    assert v == (256 * p) * q + s by {
      assert 256 * (q * p) == (256 * p) * q;
    }
    assert 0 <= s < 256 * p;
    ModUnique(v, 256 * p, q, s);
  }

  lemma ModUnique(v: int, n: int, q: int, r: int)
    requires 0 <= r < n && v == n * q + r
    ensures v % n == r
  {
    var q', r' := v / n, v % n;
    assert n * (q' - q) == r - r';
    MulAtLeast(n, q' - q);
  }

  lemma MulAtLeast(n: int, k: int)
    requires 0 <= n
    ensures 1 <= k ==> n <= n * k
    ensures k <= -1 ==> n * k <= -n
  {
  }

  /** Reading back what was written gives the value cut to the field's width. */
  lemma {:induction false} LoadAfterStore(b: seq<byte>, off: nat, w: nat, v: nat)
    requires off + w <= |b|
    ensures Load(Store(b, off, w, v), off, w) == v % Pow256(w)
    decreases w
  {
    if w != 0 {
      var b1 := b[off := v % 256];
      LoadAfterStore(b1, off + 1, w - 1, v / 256);
      ModStep(v, Pow256(w - 1));
    }
  }

  /** A write to one field is invisible through a field that does not overlap it. */
  lemma LoadAfterStoreApart(b: seq<byte>, f: Field, g: Field, v: nat)
    requires f.Inside(|b|) && f.Apart(g)
    ensures LoadField(StoreField(b, f, v), g) == LoadField(b, g)
  {
    LoadFrame(StoreField(b, f, v), b, g.off, g.w);
  }

  lemma LoadAfterStoreSame(b: seq<byte>, f: Field, v: nat)
    requires f.Inside(|b|)
    ensures LoadField(StoreField(b, f, v), f) == v % Pow256(f.w)
  {
    LoadAfterStore(b, f.off, f.w, v);
  }

  /** `uint64_t` addition and subtraction. */
  function Add64(a: u64, b: u64): (s: u64)
    ensures s == (a + b) % TWO_64
  {
    if a + b < TWO_64 then a + b else a + b - TWO_64
  }

  function Sub64(a: u64, b: u64): (d: u64)
    ensures Add64(d, b) == a
  {
    if b <= a then a - b else a - b + TWO_64
  }
}
