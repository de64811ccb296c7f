/** The generated `aggr_*` functions: one field of all members of a group, folded
    into a list of values and, mostly, a field of the cooked record. */
module Aggregates {
  import opened Bits
  import opened Bytes
  import opened Folds
  import opened LowSort
  import opened Query
  import opened Seqs
  import opened Unions

  datatype AggrOp = STATIC | COUNT | UNION | MEDIAN | MEAN | SUM | OR | XOR

  datatype AggrTerm = AggrTerm(field: Field, op: AggrOp)

  function Vals(members: seq<Record>, f: Field): (vs: seq<u64>)
    ensures |vs| == |members|
    ensures forall i :: 0 <= i < |vs| ==> vs[i] == Val(members[i], f)
  {
    seq(|members|, i requires 0 <= i < |members| => Val(members[i], f))
  }

  function Sum(vs: seq<u64>): nat { SumBy(vs, (v: u64) => v) }

  /** The values of the field, sorted. */
  method SortedVals(members: seq<Record>, f: Field) returns (temp: array<u64>)
    ensures fresh(temp) && temp.Length == |members|
    ensures LowSorted(temp[..]) && multiset(temp[..]) == multiset(Vals(members, f))
  {
    temp := new u64[|members|];
    for i := 0 to |members|
      invariant temp[..i] == Vals(members, f)[..i]
    {
      temp[i] := Val(members[i], f);
    }
    assert temp[..] == Vals(members, f)[..|members|] == Vals(members, f);
    QsortCompar(temp);
  }

  /** What each operator's list of values means. Unions and medians speak of low
      halves, as the sort does. */
  ghost predicate AggrMeans(op: AggrOp, vs: seq<u64>, common: bool, values: seq<u64>)
    requires vs != []
  {
    match op
    case STATIC => if common then values == [vs[0]] else UnionMeans(vs, values)
    case COUNT => values == [|vs| % TWO_64]
    case UNION => UnionMeans(vs, values)
    case MEDIAN => |values| == 1 && MedianMeans(vs, values[0])
    case MEAN => values == [(Sum(vs) % TWO_64) / |vs|]
    case SUM => values == [Sum(vs) % TWO_64]
    case OR => |values| == 1 && BitsMean(false, vs, values[0])
    case XOR => |values| == 1 && BitsMean(true, vs, values[0])
  }

  ghost predicate MedianMeans(vs: seq<u64>, m: u64) {
    && m in vs
    && Count(vs, (x: u64) => Low(x) < Low(m)) <= |vs| / 2 < Count(vs, (x: u64) => Low(x) <= Low(m))
  }

  method Union(members: seq<Record>, f: Field) returns (values: seq<u64>)
    requires members != []
    ensures UnionMeans(Vals(members, f), values)
  {
    hide UnionMeans, LowSorted, Vals, Dedup;
    var temp := SortedVals(members, f);
    ghost var sorted := temp[..];
    DedupShort([temp[0]]);
    values := [temp[0]];
    var last := temp[0];
    for i := 1 to temp.Length
      invariant temp[..] == sorted && last == sorted[i - 1] && values == Dedup(sorted[..i])
    {
      DedupSnoc(sorted[..i], sorted[i]);
      assert sorted[..i + 1] == sorted[..i] + [sorted[i]];
      if temp[i] != last {
        values := values + [temp[i]];
        last := temp[i];
      }
    }
    assert sorted[..temp.Length] == sorted;
    assert LowSortOf(Vals(members, f), sorted);
    UnionIsExact(Vals(members, f), values);
  }

  method Median(members: seq<Record>, f: Field) returns (m: u64)
    requires members != []
    ensures MedianMeans(Vals(members, f), m)
  {
    var temp := SortedVals(members, f);
    m := temp[|members| / 2];
    MiddleIsMedian(temp[..], Vals(members, f), |members| / 2);
  }

  lemma MiddleIsMedian(temp: seq<u64>, vs: seq<u64>, k: nat)
    requires LowSorted(temp) && multiset(temp) == multiset(vs) && k < |temp| && |temp| == |vs| && k == |vs| / 2
    ensures MedianMeans(vs, temp[k])
  {
    var m := temp[k];
    var below, upTo := (x: u64) => Low(x) < Low(m), (x: u64) => Low(x) <= Low(m);
    CountUpTo(temp, below, k);
    CountUpTo(temp, upTo, k + 1);
    CountPermutation(temp, vs, below);
    CountPermutation(temp, vs, upTo);
    assert m in multiset(vs);
  }

  /** The accumulator loop shared by sum and mean. */
  method Accumulate(members: seq<Record>, f: Field) returns (acc: u64)
    ensures acc == Sum(Vals(members, f)) % TWO_64
  {
    ghost var vs := Vals(members, f);
    acc := 0;
    ghost var laps := 0;
    for i := 0 to |members|
      invariant Sum(vs[..i]) == TWO_64 * laps + acc
    {
      assert vs[..i + 1][..i] == vs[..i];
      laps := if acc + Val(members[i], f) < TWO_64 then laps else laps + 1;
      acc := Add64(acc, Val(members[i], f));
    }
    assert vs[..|members|] == vs;
    ModUnique(Sum(vs), TWO_64, laps, acc);
  }

  /** The accumulator loop of `or` and `xor`. */
  method AccumulateBits(exclusive: bool, members: seq<Record>, f: Field) returns (acc: u64)
    ensures BitsMean(exclusive, Vals(members, f), acc)
  {
    hide BitsMean;
    ghost var vs := Vals(members, f);
    acc := 0;
    NothingFolded(exclusive);
    assert vs[..0] == [];
    for i := 0 to |members|
      invariant BitsMean(exclusive, vs[..i], acc)
    {
      OneMoreFolded(exclusive, vs[..i], acc, vs[i]);
      assert vs[..i + 1] == vs[..i] + [vs[i]];
      WidthBounds();
      FoldFits(exclusive, vs[..i + 1], Bitwise(exclusive, acc, vs[i]), 8);
      acc := Bitwise(exclusive, acc, Val(members[i], f));
    }
    assert vs[..|members|] == vs;
  }

  /** One aggregation; `common` only matters to `aggr_static`. */
  method Aggregate(op: AggrOp, members: seq<Record>, f: Field, common: bool) returns (values: seq<u64>)
    requires members != []
    ensures AggrMeans(op, Vals(members, f), common, values)
  {
    match op
    case STATIC =>
      if common {
        values := [Val(members[0], f)];
      } else {
        values := Union(members, f);
      }
    case COUNT => values := [|members| % TWO_64];
    case UNION => values := Union(members, f);
    case MEDIAN =>
      var m := Median(members, f);
      values := [m];
    case MEAN =>
      var acc := Accumulate(members, f);
      MeanFits(acc, |members|);
      values := [acc / |members|];
    case SUM =>
      var acc := Accumulate(members, f);
      values := [acc];
    case OR =>
      var acc := AccumulateBits(false, members, f);
      values := [acc];
    case XOR =>
      var acc := AccumulateBits(true, members, f);
      values := [acc];
  }

  lemma MeanFits(acc: u64, n: nat)
    requires 1 <= n
    ensures 0 <= acc / n <= acc
  {
    var q := acc / n;
    MulOrder(1, n, q);
  }

  /** Every operator has some list of values to yield. */
  lemma AggregateExists(op: AggrOp, vs: seq<u64>, common: bool) returns (values: seq<u64>)
    requires vs != []
    ensures AggrMeans(op, vs, common, values)
  {
    match op {
      case STATIC =>
        if common {
          values := [vs[0]];
        } else {
          values := SomeUnion(vs);
        }
      case COUNT => values := [|vs| % TWO_64];
      case UNION => values := SomeUnion(vs);
      case MEDIAN =>
        var temp := LowSortExists(vs);
        assert |multiset(temp)| == |multiset(vs)|;
        MiddleIsMedian(temp, vs, |vs| / 2);
        values := [temp[|vs| / 2]];
      case MEAN =>
        MeanFits(Sum(vs) % TWO_64, |vs|);
        values := [(Sum(vs) % TWO_64) / |vs|];
      case SUM => values := [Sum(vs) % TWO_64];
      case OR =>
        var x := FoldExists(false, vs);
        values := [x];
      case XOR =>
        var x := FoldExists(true, vs);
        values := [x];
    }
  }

  // ---- meaning on fields of at most 32 bits ----

  lemma NarrowFieldIsSmall(members: seq<Record>, f: Field)
    requires f.w != 8
    ensures Small(Vals(members, f))
  {
    WidthBounds();
  }

  lemma MedianOrderFree(vs: seq<u64>, us: seq<u64>, m: u64, k: u64)
    requires multiset(vs) == multiset(us) && Small(vs) && MedianMeans(vs, m) && MedianMeans(us, k)
    ensures m == k
  {
    assert k in multiset(vs);
    assert |multiset(vs)| == |vs| && |multiset(us)| == |us|;
    CountPermutation(vs, us, (x: u64) => Low(x) < Low(k));
    CountPermutation(vs, us, (x: u64) => Low(x) <= Low(k));
    if m < k {
      CountMonotone(vs, (x: u64) => Low(x) <= Low(m), (x: u64) => Low(x) < Low(k));
    } else if k < m {
      CountMonotone(vs, (x: u64) => Low(x) <= Low(k), (x: u64) => Low(x) < Low(m));
    }
  }

  ghost predicate Halves(vs: seq<u64>, m: u64) {
    Count(vs, (x: u64) => x < m) <= |vs| / 2 < Count(vs, (x: u64) => x <= m)
  }

  /** The median of a narrow field splits its values in the middle. */
  lemma MedianSplits(vs: seq<u64>, m: u64)
    requires Small(vs) && MedianMeans(vs, m)
    ensures Halves(vs, m)
  {
    assert m < TWO_32;
    CountMonotone(vs, (x: u64) => x < m, (x: u64) => Low(x) < Low(m));
    CountMonotone(vs, (x: u64) => Low(x) <= Low(m), (x: u64) => x <= m);
  }

  // ---- sums ----

  /** The sum of no members is zero, and one more member adds the number in its
      field. */
  lemma SumOfMembers(members: seq<Record>, r: Record, f: Field)
    ensures Sum(Vals([], f)) == 0
    ensures Sum(Vals(members + [r], f)) == Sum(Vals(members, f)) + Load(r.bytes, f.off, f.w)
  {
    assert Vals(members + [r], f)[..|members|] == Vals(members, f);
  }

  lemma SumOrderFree(vs: seq<u64>, us: seq<u64>)
    requires multiset(vs) == multiset(us)
    ensures Sum(vs) == Sum(us)
  {
    SumByPermutation(vs, us, (v: u64) => v);
  }

  /** A narrow field summed over at most 2^32 - 1 members never wraps. */
  lemma NarrowSumFits(vs: seq<u64>)
    requires Small(vs) && |vs| < TWO_32
    ensures Sum(vs) < TWO_64
  {
    SumByBounds(vs, (v: u64) => v, 0, TWO_32 - 1);
    var n := |vs|;
    assert (TWO_32 - 1) * n <= (TWO_32 - 1) * (TWO_32 - 1);
  }

  /** The mean of a narrow field is the exact floor of the mean and lies between
      any bounds of the values. */
  lemma NarrowMeanExact(vs: seq<u64>, lo: nat, hi: nat, mean: u64)
    requires Small(vs) && 1 <= |vs| < TWO_32 && AggrMeans(MEAN, vs, false, [mean])
    requires forall i :: 0 <= i < |vs| ==> lo <= vs[i] <= hi
    ensures mean * |vs| <= Sum(vs) < (mean + 1) * |vs|
    ensures lo <= mean <= hi
  {
    NarrowSumFits(vs);
    SumByBounds(vs, (v: u64) => v, lo, hi);
    ModUnique(Sum(vs), TWO_64, 0, Sum(vs));
    FloorBetween(Sum(vs), |vs|, lo, hi);
  }

  lemma FloorBetween(s: nat, n: nat, lo: nat, hi: nat)
    requires 1 <= n && lo * n <= s <= hi * n
    ensures (s / n) * n <= s < (s / n + 1) * n && lo <= s / n <= hi
  {
    var q := s / n;
    assert q * n <= s < (q + 1) * n;
    MulOrder(q + 1, lo, n);
    MulOrder(hi + 1, q, n);
  }

  lemma MulOrder(a: nat, b: nat, n: nat)
    ensures a <= b ==> a * n <= b * n
  {
  }

  /** What a `w`-byte field keeps of a wrapped sum is the true sum modulo
      2^(8w). */
  lemma NarrowFieldOfSum(vs: seq<u64>, w: Width)
    ensures (Sum(vs) % TWO_64) % Pow256(w) == Sum(vs) % Pow256(w)
  {
    WidthBounds();
    var k := match w
      case 8 => 1
      case 4 => TWO_32
      case 2 => 0x1_0000_0000_0000
      case _ => 0x100_0000_0000_0000;
    assert Pow256(w) * k == TWO_64;
    ModOfMultiple(Sum(vs), Pow256(w), k);
  }

  // ---- whole groups ----

  /** Over a group of fewer than 2^32 members and a field of at most 32 bits the
      union lists the values strictly climbing, the median splits them in the
      middle, and the mean is the exact floor of the mean. */
  lemma NarrowGroupMeans(members: seq<Record>, f: Field, op: AggrOp, common: bool, values: seq<u64>)
    requires f.w != 8 && 1 <= |members| < TWO_32 && AggrMeans(op, Vals(members, f), common, values)
    ensures op.UNION? ==> Climbs(values) && forall v :: v in values <==> v in Vals(members, f)
    ensures op.MEDIAN? ==> Halves(Vals(members, f), values[0])
    ensures op.MEAN? ==> values[0] * |members| <= Sum(Vals(members, f)) < (values[0] + 1) * |members|
  {
    var vs := Vals(members, f);
    NarrowFieldIsSmall(members, f);
    match op {
      case UNION =>
        SmallUnionClimbs(vs, values);
        UnionLists(vs, values);
      case MEDIAN => MedianSplits(vs, values[0]);
      case MEAN => NarrowMeanExact(vs, 0, TWO_32, values[0]);
      case _ =>
    }
  }

  lemma ValsPermuted(members: seq<Record>, others: seq<Record>, f: Field)
    requires multiset(members) == multiset(others)
    ensures multiset(Vals(members, f)) == multiset(Vals(others, f))
  {
    MapPermuted(members, others, (r: Record) => Val(r, f));
    assert Vals(members, f) == Mapped(members, (r: Record) => Val(r, f));
    assert Vals(others, f) == Mapped(others, (r: Record) => Val(r, f));
  }

  /** The operators that look at the values one by one, whatever their width. */
  predicate Fold(op: AggrOp) { op.COUNT? || op.MEAN? || op.SUM? || op.OR? || op.XOR? }

  /** No aggregation depends on the order of the members: folds never do, unions
      and medians do not for fields of at most 32 bits. */
  lemma AggregatesOrderFree(members: seq<Record>, others: seq<Record>, f: Field, op: AggrOp,
                            a: seq<u64>, b: seq<u64>)
    requires members != [] && multiset(members) == multiset(others)
    requires Fold(op) || (f.w != 8 && !op.STATIC?)
    requires |others| == |members| && AggrMeans(op, Vals(members, f), false, a)
    requires AggrMeans(op, Vals(others, f), false, b)
    ensures a == b
  {
    var vs, us := Vals(members, f), Vals(others, f);
    ValsPermuted(members, others, f);
    match op {
      case UNION =>
        NarrowFieldIsSmall(members, f);
        UnionOrderFree(vs, us, a, b);
      case MEDIAN =>
        NarrowFieldIsSmall(members, f);
        MedianOrderFree(vs, us, a[0], b[0]);
      case OR => FoldOrderFree(false, vs, us, a[0], b[0]);
      case XOR => FoldOrderFree(true, vs, us, a[0], b[0]);
      case _ => SumOrderFree(vs, us);
    }
  }
}
