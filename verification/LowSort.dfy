/** Sorting 64-bit slots with a comparator that reads only their low halves
    (scripts/generate-functions.py). */
module LowSort {
  import opened Bytes
  import opened Seqs

  /** `compar` reads only the low 32 bits of the 64-bit slots it sorts. */
  function Low(v: u64): nat { v % TWO_32 }

  ghost predicate LowSorted(vs: seq<u64>) {
    forall i, j :: 0 <= i < j < |vs| ==> Low(vs[i]) <= Low(vs[j])
  }

  ghost predicate LowSinking(vs: seq<u64>, i: nat, j: nat)
    requires j <= i < |vs|
  {
    forall p, q :: 0 <= p < q <= i && q != j ==> Low(vs[p]) <= Low(vs[q])
  }

  method SwapSlots(temp: array<u64>, j: nat)
    requires 1 <= j < temp.Length
    modifies temp
    ensures temp[..] == Exchanged(old(temp[..]), j - 1, j)
  {
    temp[j - 1], temp[j] := temp[j], temp[j - 1];
  }

  lemma LowSinkStep(vs: seq<u64>, i: nat, j: nat)
    requires 1 <= j <= i < |vs| && LowSinking(vs, i, j) && Low(vs[j - 1]) > Low(vs[j])
    ensures LowSinking(Exchanged(vs, j - 1, j), i, j - 1)
  {
  }

  lemma LowSinkDone(vs: seq<u64>, i: nat, j: nat)
    requires j <= i < |vs| && LowSinking(vs, i, j) && (j == 0 || Low(vs[j - 1]) <= Low(vs[j]))
    ensures LowSorted(vs[..i + 1])
  {
    hide Low;
    forall p | 0 <= p < j
      ensures Low(vs[p]) <= Low(vs[j])
    {
      assert p < j - 1 ==> Low(vs[p]) <= Low(vs[j - 1]);
    }
  }

  method SinkSlot(temp: array<u64>, i: nat)
    requires i < temp.Length && LowSorted(temp[..i])
    modifies temp
    ensures LowSorted(temp[..i + 1]) && multiset(temp[..]) == multiset(old(temp[..]))
  {
    hide Low, Exchanged;
    var j := i;
    ghost var vs := temp[..];
    while j > 0 && Low(temp[j - 1]) > Low(temp[j])
      invariant 0 <= j <= i && temp[..] == vs && LowSinking(vs, i, j)
      invariant multiset(vs) == multiset(old(temp[..]))
    {
      LowSinkStep(vs, i, j);
      SwapSlots(temp, j);
      vs := Exchanged(vs, j - 1, j);
      j := j - 1;
    }
    LowSinkDone(vs, i, j);
  }

  /** `qsort` with `compar`: the result is some permutation sorted by low half. */
  method QsortCompar(temp: array<u64>)
    modifies temp
    ensures LowSorted(temp[..]) && multiset(temp[..]) == multiset(old(temp[..]))
  {
    for i := 0 to temp.Length
      invariant LowSorted(temp[..i]) && multiset(temp[..]) == multiset(old(temp[..]))
    {
      SinkSlot(temp, i);
    }
    assert temp[..temp.Length] == temp[..];
  }

  ghost predicate Ascends(vs: seq<u64>) {
    forall i, j :: 0 <= i < j < |vs| ==> vs[i] <= vs[j]
  }

  /** A permutation `qsort` may return with `compar`. */
  ghost predicate LowSortOf(vs: seq<u64>, temp: seq<u64>) {
    LowSorted(temp) && multiset(temp) == multiset(vs)
  }

  /** Sorting by low halves is sure to sort the values exactly when the low halves
      tell all different values apart, in the right order. */
  lemma LowSortIsSort(vs: seq<u64>)
    ensures (forall temp :: LowSortOf(vs, temp) ==> Ascends(temp))
            <==> forall x, y :: x in vs && y in vs && x < y ==> Low(x) < Low(y)
  {
    hide Low;
    if x, y :| x in vs && y in vs && x < y && Low(x) >= Low(y) {
      var temp := DescendingSort(vs, x, y);
    }
    if temp: seq<u64> :| LowSortOf(vs, temp) && !Ascends(temp) {
      var i, j :| 0 <= i < j < |temp| && temp[i] > temp[j];
      assert temp[i] in multiset(vs) && temp[j] in multiset(vs);
      assert Low(temp[i]) <= Low(temp[j]);
    }
  }

  /** A sort by low halves that leaves x and y the wrong way round. */
  lemma DescendingSort(vs: seq<u64>, x: u64, y: u64) returns (temp: seq<u64>)
    requires x in vs && y in vs && x < y && Low(x) >= Low(y)
    ensures LowSortOf(vs, temp) && !Ascends(temp)
  {
    hide Low;
    temp := LowSortExists(vs);
    assert x in multiset(temp) && y in multiset(temp);
    var i :| 0 <= i < |temp| && temp[i] == x;
    var j :| 0 <= j < |temp| && temp[j] == y;
    if i < j {
      temp := ExchangeEqual(temp, i, j);
    }
  }

  lemma ExchangeEqual(temp: seq<u64>, i: nat, j: nat) returns (other: seq<u64>)
    requires i < j < |temp| && LowSorted(temp) && Low(temp[i]) >= Low(temp[j])
    ensures LowSortOf(temp, other) && |other| == |temp| && other[i] == temp[j] && other[j] == temp[i]
  {
    hide Low;
    other := Exchanged(temp, i, j);
    assert forall k :: 0 <= k < |temp| ==> Low(other[k]) == Low(temp[k]);
  }

  lemma {:induction false} LowSortExists(vs: seq<u64>) returns (temp: seq<u64>)
    ensures LowSortOf(vs, temp)
  {
    if vs == [] {
      temp := [];
    } else {
      var n := |vs| - 1;
      var front := LowSortExists(vs[..n]);
      temp := InsertLow(front, vs[n]);
      assert vs == vs[..n] + [vs[n]];
    }
  }

  lemma {:induction false} InsertLow(front: seq<u64>, v: u64) returns (temp: seq<u64>)
    requires LowSorted(front)
    ensures LowSorted(temp) && multiset(temp) == multiset(front) + multiset{v}
  {
    hide Low;
    var n := |front| - 1;
    if front == [] || Low(front[n]) <= Low(v) {
      temp := front + [v];
    } else {
      var head := InsertLow(front[..n], v);
      assert front == front[..n] + [front[n]];
      forall k | 0 <= k < |head|
        ensures Low(head[k]) <= Low(front[n])
      {
        assert head[k] in multiset(head);
      }
      temp := head + [front[n]];
    }
  }
}
