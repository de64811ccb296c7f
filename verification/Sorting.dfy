/** The order the grouper sorts by (src/utils.c, src/grouper.c) and the sort. */
module Sorting {
  import opened Bytes
  import opened Lex
  import opened Query
  import opened Seqs

  /** The right-hand fields of the clause's terms, the sort key of a record. */
  function Key(c: GrouperClause, r: Record): (k: seq<nat>)
    ensures |k| == |c|
    ensures forall j :: 0 <= j < |c| ==> k[j] == Val(r, c[j].field2)
  {
    seq(|c|, j requires 0 <= j < |c| => Val(r, c[j].field2))
  }

  /** The sign of the lexicographic comparison of two keys. */
  ghost function KeySign(a: seq<nat>, b: seq<nat>): int
    requires |a| == |b|
  {
    if LexBelow(a, b) then -1 else if LexBelow(b, a) then 1 else 0
  }

  /** `comp_uintN_t`. */
  function CompUint(x: u64, y: u64): (sign: int)
    ensures sign == -1 <==> x < y
    ensures sign == 1 <==> x > y
    ensures sign == 0 <==> x == y
  {
    (if x > y then 1 else 0) - (if y > x then 1 else 0)
  }

  /** `qsort_comp`: the first term that tells the records apart decides. */
  method QsortComp(e1: Record, e2: Record, c: GrouperClause) returns (result: int)
    ensures result == KeySign(Key(c, e1), Key(c, e2))
  {
    ghost var k1, k2 := Key(c, e1), Key(c, e2);
    result := 0;
    var i := 0;
    while i < |c|
      invariant 0 <= i <= |c|
      invariant k1[..i] == k2[..i]
      invariant result == 0
    {
      result := CompUint(Val(e1, c[i].field2), Val(e2, c[i].field2));
      if result != 0 {
        LexTrichotomy(k1, k2);
        assert result == -1 ==> LexBelow(k1, k2);
        assert result == 1 ==> k2[..i] == k1[..i] && k2[i] < k1[i];
        return;
      }
      i := i + 1;
    }
    assert k1 == k1[..i] == k2[..i] == k2;
    LexTrichotomy(k1, k2);
  }

  /** The comparator orders records totally: swapping the arguments swaps the
      sign, "not above" is transitive, and zero means all keys agree. */
  lemma CompIsTotalPreorder(c: GrouperClause, x: Record, y: Record, z: Record)
    ensures KeySign(Key(c, x), Key(c, y)) == -KeySign(Key(c, y), Key(c, x))
    ensures KeySign(Key(c, x), Key(c, y)) <= 0 && KeySign(Key(c, y), Key(c, z)) <= 0
      ==> KeySign(Key(c, x), Key(c, z)) <= 0
    ensures KeySign(Key(c, x), Key(c, y)) == 0 <==> Key(c, x) == Key(c, y)
  {
    var kx, ky, kz := Key(c, x), Key(c, y), Key(c, z);
    LexTrichotomy(kx, ky);
    LexTrichotomy(ky, kz);
    if !LexBelow(ky, kx) && !LexBelow(kz, ky) {
      NotBelowTransitive(kx, ky, kz);
    }
  }

  ghost predicate NotAbove(c: GrouperClause, x: Record, y: Record) {
    !LexBelow(Key(c, y), Key(c, x))
  }

  ghost predicate SortedBy(c: GrouperClause, s: seq<Record>) {
    forall i, j :: 0 <= i < j < |s| ==> NotAbove(c, s[i], s[j])
  }

  /** Sorted means: at the first right-hand field that tells two records apart,
      the earlier record has the smaller number. */
  lemma SortedMeans(c: GrouperClause, s: seq<Record>)
    ensures SortedBy(c, s) <==> forall i, j :: 0 <= i < j < |s| ==> InOrder(c, s[i], s[j])
  {
    hide Key, LexBelow, Val;
    forall i, j | 0 <= i < j < |s|
      ensures NotAbove(c, s[i], s[j]) <==> InOrder(c, s[i], s[j])
    {
      NotAboveMeans(c, s[i], s[j]);
    }
  }

  /** No term has the records the wrong way round unless an earlier one tells
      them apart. */
  ghost predicate InOrder(c: GrouperClause, x: Record, y: Record) {
    forall k :: 0 <= k < |c| && AgreeBefore(c, k, x, y) ==> Number(x, c[k].field2) <= Number(y, c[k].field2)
  }

  ghost predicate AgreeBefore(c: GrouperClause, k: nat, x: Record, y: Record)
    requires k <= |c|
  {
    forall m :: 0 <= m < k ==> Number(x, c[m].field2) == Number(y, c[m].field2)
  }

  lemma KeyNumbers(c: GrouperClause, r: Record)
    ensures forall m :: 0 <= m < |c| ==> Key(c, r)[m] == Number(r, c[m].field2)
  {
  }

  lemma NotAboveMeans(c: GrouperClause, x: Record, y: Record)
    ensures NotAbove(c, x, y) <==> InOrder(c, x, y)
  {
    hide LoadField;
    var kx, ky := Key(c, x), Key(c, y);
    assert forall m :: 0 <= m < |c| ==> kx[m] == Number(x, c[m].field2) && ky[m] == Number(y, c[m].field2) by {
      KeyNumbers(c, x);
      KeyNumbers(c, y);
    }
    forall k | 0 <= k <= |c|
      ensures AgreeBefore(c, k, x, y) <==> kx[..k] == ky[..k]
    {
      if kx[..k] == ky[..k] {
        forall m | 0 <= m < k
          ensures Number(x, c[m].field2) == Number(y, c[m].field2)
        {
          assert kx[..k][m] == ky[..k][m];
        }
      }
    }
  }

  /** Sorted up to slot `i`, but for the record still sinking in slot `j`. */
  ghost predicate Sinking(c: GrouperClause, s: seq<Record>, i: nat, j: nat)
    requires j <= i < |s|
  {
    forall p, q :: 0 <= p < q <= i && q != j ==> NotAbove(c, s[p], s[q])
  }

  lemma SinkStep(c: GrouperClause, s: seq<Record>, i: nat, j: nat)
    requires 1 <= j <= i < |s| && Sinking(c, s, i, j)
    requires LexBelow(Key(c, s[j]), Key(c, s[j - 1]))
    ensures Sinking(c, Exchanged(s, j - 1, j), i, j - 1)
  {
    LexTrichotomy(Key(c, s[j]), Key(c, s[j - 1]));
  }

  lemma SinkDone(c: GrouperClause, s: seq<Record>, i: nat, j: nat)
    requires j <= i < |s| && Sinking(c, s, i, j)
    requires j == 0 || NotAbove(c, s[j - 1], s[j])
    ensures SortedBy(c, s[..i + 1])
  {
    hide LexBelow, Key;
    forall p | 0 <= p < j
      ensures NotAbove(c, s[p], s[j])
    {
      if p < j - 1 {
        NotBelowTransitive(Key(c, s[p]), Key(c, s[j - 1]), Key(c, s[j]));
      }
    }
  }

  /** The records in the first `n` slots of a pointer array. */
  ghost predicate Filled(a: array<Record?>, n: nat)
    reads a
  {
    n <= a.Length && forall i :: 0 <= i < n ==> a[i] != null
  }

  function Records(a: array<Record?>, n: nat): (s: seq<Record>)
    requires Filled(a, n)
    reads a
    ensures |s| == n && forall i :: 0 <= i < n ==> s[i] == a[i]
  {
    seq(n, i requires 0 <= i < n reads a requires Filled(a, n) => a[i])
  }

  method SwapDown(a: array<Record?>, n: nat, j: nat)
    requires Filled(a, n) && 1 <= j < n
    modifies a
    ensures Filled(a, n) && Records(a, n) == Exchanged(old(Records(a, n)), j - 1, j)
    ensures a[n..] == old(a[n..])
  {
    a[j - 1], a[j] := a[j], a[j - 1];
  }

  /** One round of the sort: the record in slot `i` sinks to its place among the
      sorted ones before it. */
  method Sink(c: GrouperClause, a: array<Record?>, n: nat, i: nat)
    requires Filled(a, n) && i < n
    requires SortedBy(c, Records(a, n)[..i])
    modifies a
    ensures Filled(a, n) && SortedBy(c, Records(a, n)[..i + 1])
    ensures multiset(Records(a, n)) == multiset(old(Records(a, n)))
    ensures a[n..] == old(a[n..])
  {
    var j := i;
    ghost var s := Records(a, n);
    while j > 0
      invariant 0 <= j <= i && Filled(a, n) && Records(a, n) == s
      invariant Sinking(c, s, i, j)
      invariant multiset(s) == multiset(old(Records(a, n)))
      invariant a[n..] == old(a[n..])
    {
      var sign := QsortComp(a[j - 1], a[j], c);
      LexTrichotomy(Key(c, s[j - 1]), Key(c, s[j]));
      if sign <= 0 {
        break;
      }
      SinkStep(c, s, i, j);
      SwapDown(a, n, j);
      s := Exchanged(s, j - 1, j);
      j := j - 1;
    }
    SinkDone(c, s, i, j);
  }

  /** `qsort_r`: all its callers learn is that the result is some sorted
      permutation of the records. */
  method QsortR(c: GrouperClause, a: array<Record?>, n: nat)
    requires Filled(a, n)
    modifies a
    ensures Filled(a, n) && SortedBy(c, Records(a, n))
    ensures multiset(Records(a, n)) == multiset(old(Records(a, n)))
    ensures a[n..] == old(a[n..])
  {
    for i := 0 to n
      invariant Filled(a, n) && SortedBy(c, Records(a, n)[..i])
      invariant multiset(Records(a, n)) == multiset(old(Records(a, n)))
      invariant a[n..] == old(a[n..])
    {
      Sink(c, a, n, i);
    }
    assert Records(a, n)[..n] == Records(a, n);
  }

  // ---- there always is a sorted permutation ----

  lemma {:induction false} SortExists(c: GrouperClause, s: seq<Record>) returns (t: seq<Record>)
    ensures SortedBy(c, t) && multiset(t) == multiset(s)
  {
    if s == [] {
      t := [];
    } else {
      var n := |s| - 1;
      var front := SortExists(c, s[..n]);
      t := InsertRecord(c, front, s[n]);
      assert s == s[..n] + [s[n]];
    }
  }

  lemma {:induction false} InsertRecord(c: GrouperClause, front: seq<Record>, r: Record) returns (t: seq<Record>)
    requires SortedBy(c, front)
    ensures SortedBy(c, t) && multiset(t) == multiset(front) + multiset{r}
  {
    hide LexBelow, Key;
    var n := |front| - 1;
    if front == [] {
      t := [r];
    } else if NotAbove(c, front[n], r) {
      t := front + [r];
      forall i | 0 <= i < n
        ensures NotAbove(c, front[i], r)
      {
        NotBelowTransitive(Key(c, front[i]), Key(c, front[n]), Key(c, r));
      }
    } else {
      var head := InsertRecord(c, front[..n], r);
      assert front == front[..n] + [front[n]];
      LexTrichotomy(Key(c, r), Key(c, front[n]));
      forall i | 0 <= i < |head|
        ensures NotAbove(c, head[i], front[n])
      {
        assert head[i] in multiset(head);
      }
      t := head + [front[n]];
    }
  }
}
