/** The generated `aggr_union` functions: the values of a field, each listed
    once as far as the sort brings equal values together. */
module Unions {
  import opened Bytes
  import opened LowSort
  import opened Seqs

  ghost predicate Climbs(vs: seq<u64>) {
    forall i :: 0 < i < |vs| ==> vs[i - 1] < vs[i]
  }

  /** What a union of `vs` may look like: all the values, none more often than in
      `vs`, neighbours different, and low halves in order. */
  ghost predicate UnionMeans(vs: seq<u64>, values: seq<u64>) {
    && (forall v :: v in vs ==> v in values)
    && multiset(values) <= multiset(vs)
    && Alternates(values)
    && LowSorted(values)
  }

  ghost predicate Alternates(values: seq<u64>) {
    forall i :: 0 < i < |values| ==> values[i - 1] != values[i]
  }

  /** The list without values that repeat the one before. */
  function Dedup(temp: seq<u64>): (values: seq<u64>)
    ensures |values| <= |temp| && (temp != [] ==> values != [] && values[|values| - 1] == temp[|temp| - 1])
  {
    var n := |temp| - 1;
    if n <= 0 then temp
    else if temp[n] == temp[n - 1] then Dedup(temp[..n])
    else Dedup(temp[..n]) + [temp[n]]
  }

  lemma {:induction false} DedupMeans(temp: seq<u64>)
    requires LowSorted(temp)
    ensures UnionMeans(temp, Dedup(temp))
  {
    hide Low, UnionMeans;
    var n := |temp| - 1;
    if n <= 0 {
      SingleUnion(temp);
    } else {
      DedupMeans(temp[..n]);
      assert temp == temp[..n] + [temp[n]];
      assert temp[n - 1] in temp[..n];
      OneMoreValue(temp[..n], Dedup(temp[..n]), temp[n]);
    }
  }

  lemma SingleUnion(temp: seq<u64>)
    requires |temp| <= 1
    ensures UnionMeans(temp, temp)
  {
  }

  lemma OneMoreValue(vs: seq<u64>, values: seq<u64>, v: u64)
    requires UnionMeans(vs, values) && vs != [] && values != [] && values[|values| - 1] == vs[|vs| - 1]
    requires Low(vs[|vs| - 1]) <= Low(v)
    ensures UnionMeans(vs + [v], if v == vs[|vs| - 1] then values else values + [v])
  {
    hide Low;
    if v != vs[|vs| - 1] {
      forall i | 0 <= i < |values|
        ensures Low(values[i]) <= Low(v)
      {
        assert i < |values| - 1 ==> Low(values[i]) <= Low(values[|values| - 1]);
      }
    }
  }

  lemma UnionPermuted(vs: seq<u64>, us: seq<u64>, values: seq<u64>)
    requires multiset(vs) == multiset(us) && UnionMeans(vs, values)
    ensures UnionMeans(us, values)
  {
    forall v | v in us
      ensures v in values
    {
      assert v in multiset(us);
    }
  }

  /** A union has exactly the values it is made from. */
  lemma UnionLists(vs: seq<u64>, values: seq<u64>)
    requires UnionMeans(vs, values)
    ensures forall v :: v in values <==> v in vs
  {
    forall v | v in values
      ensures v in vs
    {
      assert v in multiset(values);
      assert v in multiset(vs);
    }
  }

  lemma {:induction false} AlternatingStays(values: seq<u64>)
    requires Alternates(values)
    ensures Dedup(values) == values
  {
    hide Dedup;
    var n := |values| - 1;
    if n <= 0 {
      DedupShort(values);
    } else {
      AlternatingStays(values[..n]);
      DedupSnoc(values[..n], values[n]);
      assert values == values[..n] + [values[n]];
      assert values[n - 1] != values[n];
    }
  }

  lemma DedupShort(values: seq<u64>)
    requires |values| <= 1
    ensures Dedup(values) == values
  {
  }

  lemma DedupSnoc(front: seq<u64>, v: u64)
    requires front != []
    ensures Dedup(front + [v]) == if v == front[|front| - 1] then Dedup(front) else Dedup(front) + [v]
  {
    assert (front + [v])[..|front|] == front;
  }

  /** A second copy right behind the first does not show. */
  lemma {:induction false} DedupDouble(temp: seq<u64>, k: nat)
    requires k < |temp|
    ensures Dedup(temp[..k + 1] + temp[k..]) == Dedup(temp)
  {
    hide Dedup;
    var n := |temp| - 1;
    var front, last := temp[..n], temp[n];
    assert temp == front + [last];
    if k == n {
      assert temp[..k + 1] + temp[k..] == temp + [last];
      DedupSnoc(temp, last);
    } else {
      DedupDouble(front, k);
      var double := front[..k + 1] + front[k..];
      assert temp[..k + 1] + temp[k..] == double + [last];
      DedupSnoc(double, last);
      DedupSnoc(front, last);
    }
  }

  /** The list with all the copies `more` asks for put back. */
  lemma {:induction false} PutBack(values: seq<u64>, more: multiset<u64>) returns (temp: seq<u64>)
    requires LowSorted(values) && Alternates(values) && forall v :: v in more ==> v in values
    ensures LowSorted(temp) && multiset(temp) == multiset(values) + more && Dedup(temp) == values
    decreases |more|
  {
    hide Low;
    if more == multiset{} {
      AlternatingStays(values);
      temp := values;
    } else {
      var v :| v in more;
      var rest := PutBack(values, more - multiset{v});
      assert v in multiset(rest);
      var k :| 0 <= k < |rest| && rest[k] == v;
      DedupDouble(rest, k);
      temp := DoubledSorted(rest, k);
      assert more == more - multiset{v} + multiset{v};
    }
  }

  lemma DoubledSorted(rest: seq<u64>, k: nat) returns (temp: seq<u64>)
    requires LowSorted(rest) && k < |rest|
    ensures temp == rest[..k + 1] + rest[k..] && LowSorted(temp)
    ensures multiset(temp) == multiset(rest) + multiset{rest[k]}
  {
    hide Low;
    temp := rest[..k + 1] + rest[k..];
    forall i | 0 <= i < |temp|
      ensures temp[i] == rest[if i <= k then i else i - 1]
    {
    }
    assert rest == rest[..k] + rest[k..] && rest[..k + 1] == rest[..k] + [rest[k]];
  }

  /** The description is exact: it allows what some sort by low halves followed
      by the removal of repetitions yields, and nothing else. */
  lemma UnionIsExact(vs: seq<u64>, values: seq<u64>)
    ensures UnionMeans(vs, values) <==> exists temp :: LowSortOf(vs, temp) && Dedup(temp) == values
  {
    if UnionMeans(vs, values) {
      var more := multiset(vs) - multiset(values);
      forall v | v in more
        ensures v in values
      {
        assert v in multiset(vs);
      }
      var temp := PutBack(values, more);
      assert LowSortOf(vs, temp);
    }
    if temp :| LowSortOf(vs, temp) && Dedup(temp) == values {
      DedupMeans(temp);
      UnionPermuted(temp, vs, values);
    }
  }

  // ---- when the union is in order ----

  lemma {:induction false} ClimbingDedup(temp: seq<u64>)
    requires Climbs(Dedup(temp))
    ensures Ascends(temp)
  {
    var n := |temp| - 1;
    if n > 0 {
      var front := Dedup(temp[..n]);
      assert Climbs(front) by {
        assert front == Dedup(temp)[..|front|];
      }
      ClimbingDedup(temp[..n]);
      if temp[n] != temp[n - 1] {
        assert Dedup(temp)[|front| - 1] < Dedup(temp)[|front|];
      }
    }
  }

  lemma DescendingUnion(vs: seq<u64>, x: u64, y: u64) returns (values: seq<u64>)
    requires x in vs && y in vs && x < y && Low(x) >= Low(y)
    ensures UnionMeans(vs, values) && !Climbs(values)
  {
    hide Low, UnionMeans;
    var temp := DescendingSort(vs, x, y);
    values := Dedup(temp);
    UnionIsExact(vs, values);
    if Climbs(values) {
      ClimbingDedup(temp);
    }
  }

  /** Every union of these values climbs strictly exactly when low halves tell
      different values apart, in the right order. */
  lemma UnionClimbs(vs: seq<u64>)
    ensures (forall values :: UnionMeans(vs, values) ==> Climbs(values))
            <==> forall x, y :: x in vs && y in vs && x < y ==> Low(x) < Low(y)
  {
    hide Low;
    if x, y :| x in vs && y in vs && x < y && Low(x) >= Low(y) {
      var values := DescendingUnion(vs, x, y);
    }
    if values :| UnionMeans(vs, values) && !Climbs(values) {
      var i :| 0 < i < |values| && values[i - 1] >= values[i];
      assert values[i] in multiset(values) && values[i - 1] in multiset(values);
      assert values[i] in multiset(vs) && values[i - 1] in multiset(vs);
      assert Low(values[i - 1]) <= Low(values[i]) && values[i - 1] != values[i];
    }
  }

  /** No union of these values lists one twice exactly when values that share
      their low half with another value occur only once. */
  lemma UnionListsOnce(vs: seq<u64>)
    ensures (forall values: seq<u64> :: UnionMeans(vs, values) ==> NoRepeats(values))
            <==> forall x, y :: x in vs && y in vs && x != y && Low(x) == Low(y) ==> multiset(vs)[x] == 1
  {
    hide Low;
    if x, y :| x in vs && y in vs && x != y && Low(x) == Low(y) && multiset(vs)[x] != 1 {
      assert x in multiset(vs);
      var values := RepeatingUnion(vs, x, y);
    }
    if values: seq<u64> :| UnionMeans(vs, values) && !NoRepeats(values) {
      var i, j :| 0 <= i < j < |values| && values[i] == values[j];
      TwiceListed(values, i, j);
      assert values[i] in multiset(values) && values[i + 1] in multiset(values);
      assert values[i] in multiset(vs) && values[i + 1] in multiset(vs);
      assert Low(values[i]) <= Low(values[i + 1]) <= Low(values[j]);
      assert values[i] != values[i + 1];
    }
  }

  lemma TwiceListed(values: seq<u64>, i: nat, j: nat)
    requires i < j < |values| && values[i] == values[j] && Alternates(values)
    ensures i + 1 < j && multiset(values)[values[i]] >= 2
  {
    assert values[j - 1] != values[j];
    assert values == values[..j] + [values[j]] + values[j + 1..];
    assert values[i] in multiset(values[..j]);
  }

  /** A union that lists x twice, with y in between. */
  lemma RepeatingUnion(vs: seq<u64>, x: u64, y: u64) returns (values: seq<u64>)
    requires x in vs && y in vs && x != y && Low(x) == Low(y) && multiset(vs)[x] >= 2
    ensures UnionMeans(vs, values) && !NoRepeats(values)
  {
    hide Low, UnionMeans, Dedup;
    var once := SomeUnion(vs);
    values := once;
    if NoRepeats(once) {
      var i := Listed(vs, once, x);
      var j := Listed(vs, once, y);
      var k := if i < j then j + 1 else j;
      OnceListed(once, i);
      values := Inserted(once, i, j, k);
      UnionWithOneMore(vs, once, values, x);
      assert values[if i < j then i else i + 1] == values[k] == x;
    }
  }

  lemma SomeUnion(vs: seq<u64>) returns (values: seq<u64>)
    ensures UnionMeans(vs, values) && LowSorted(values)
  {
    var temp := LowSortExists(vs);
    values := Dedup(temp);
    UnionIsExact(vs, values);
  }

  lemma Listed(vs: seq<u64>, values: seq<u64>, x: u64) returns (i: nat)
    requires UnionMeans(vs, values) && x in vs
    ensures i < |values| && values[i] == x
  {
    i :| 0 <= i < |values| && values[i] == x;
  }

  lemma OnceListed(values: seq<u64>, i: nat)
    requires i < |values| && NoRepeats(values)
    ensures multiset(values)[values[i]] == 1
  {
    var x, front, back := values[i], values[..i], values[i + 1..];
    assert values == front + [x] + back;
    assert x !in front && x !in back;
    assert x !in multiset(front) && x !in multiset(back);
  }

  /** The i-th value once more, next to the j-th, which has the same low half. */
  lemma Inserted(values: seq<u64>, i: nat, j: nat, k: nat) returns (more: seq<u64>)
    requires i < |values| && j < |values| && i != j && NoRepeats(values) && LowSorted(values)
    requires Low(values[i]) == Low(values[j]) && k == if i < j then j + 1 else j
    ensures more == values[..k] + [values[i]] + values[k..] && LowSorted(more) && Alternates(more)
    ensures multiset(more) == multiset(values) + multiset{values[i]}
  {
    hide Low, LowSorted, Alternates;
    more := values[..k] + [values[i]] + values[k..];
    LowBetween(values, j);
    InsertSorted(values, values[i], k);
    InsertAlternates(values, values[i], k);
    assert values == values[..k] + values[k..];
  }

  lemma LowBetween(values: seq<u64>, j: nat)
    requires LowSorted(values) && j < |values|
    ensures forall p :: 0 <= p <= j ==> Low(values[p]) <= Low(values[j])
    ensures forall p :: j <= p < |values| ==> Low(values[j]) <= Low(values[p])
  {
    hide Low;
  }

  lemma InsertSorted(values: seq<u64>, v: u64, k: nat)
    requires k <= |values| && LowSorted(values)
    requires forall p :: 0 <= p < k ==> Low(values[p]) <= Low(v)
    requires forall p :: k <= p < |values| ==> Low(v) <= Low(values[p])
    ensures LowSorted(values[..k] + [v] + values[k..])
  {
    hide Low;
  }

  lemma InsertAlternates(values: seq<u64>, v: u64, k: nat)
    requires k <= |values| && NoRepeats(values)
    requires (k > 0 ==> values[k - 1] != v) && (k < |values| ==> values[k] != v)
    ensures Alternates(values[..k] + [v] + values[k..])
  {
  }

  lemma UnionWithOneMore(vs: seq<u64>, values: seq<u64>, more: seq<u64>, x: u64)
    requires UnionMeans(vs, values) && multiset(values)[x] < multiset(vs)[x]
    requires multiset(more) == multiset(values) + multiset{x} && Alternates(more) && LowSorted(more)
    ensures UnionMeans(vs, more)
  {
    forall v | v in vs
      ensures v in more
    {
      assert v in multiset(values);
      assert v in multiset(more);
    }
  }

  /** Two 64-bit values whose low halves compare the wrong way round: every union
      of 2^32 and 1 descends. */
  lemma WideUnionDescends(values: seq<u64>)
    requires UnionMeans([TWO_32, 1], values)
    ensures values == [TWO_32, 1] && !Climbs(values)
  {
    var vs: seq<u64> := [TWO_32, 1];
    assert TWO_32 in vs && vs[1] in vs;
    assert |multiset(values)| <= |multiset(vs)| by {
      assert multiset(vs) == multiset(values) + (multiset(vs) - multiset(values));
    }
    var i :| 0 <= i < |values| && values[i] == TWO_32;
    var j :| 0 <= j < |values| && values[j] == 1;
    assert Low(TWO_32) == 0 && Low(1) == 1;
  }

  /** And values with the same low half may keep equal ones apart: 2^32 twice and
      a 0 can come out with 2^32 listed twice. */
  lemma WideUnionMayRepeat()
    ensures UnionMeans([TWO_32, 0, TWO_32], [TWO_32, 0, TWO_32])
  {
    assert Low(TWO_32) == 0 && Low(0) == 0;
  }

  // ---- values below 2^32 ----

  predicate Small(vs: seq<u64>) {
    forall i :: 0 <= i < |vs| ==> vs[i] < TWO_32
  }

  /** Below 2^32 every union climbs strictly. */
  lemma SmallUnionClimbs(vs: seq<u64>, values: seq<u64>)
    requires UnionMeans(vs, values) && Small(vs)
    ensures Climbs(values)
  {
    UnionClimbs(vs);
  }

  lemma {:induction false} ClimbsFar(vs: seq<u64>, i: nat, j: nat)
    requires Climbs(vs) && i < j < |vs|
    ensures vs[i] < vs[j]
    decreases j - i
  {
    if i < j - 1 {
      ClimbsFar(vs, i, j - 1);
    }
  }

  /** A strictly climbing list is determined by its elements. */
  lemma {:induction false} ClimbsUnique(vs: seq<u64>, us: seq<u64>)
    requires Climbs(vs) && Climbs(us) && forall v: u64 :: v in vs <==> v in us
    ensures vs == us
  {
    hide Climbs;
    if |vs| > 0 {
      assert vs[0] in us;
    }
    if |us| > 0 {
      assert us[0] in vs;
    }
    if |vs| > 0 && |us| > 0 {
      var m, n := |vs| - 1, |us| - 1;
      LastIsGreatest(vs, us);
      LastIsGreatest(us, vs);
      forall v: u64
        ensures v in vs[..m] <==> v in us[..n]
      {
        LastOnlyOnce(vs, v);
        LastOnlyOnce(us, v);
      }
      FrontClimbs(vs);
      FrontClimbs(us);
      ClimbsUnique(vs[..m], us[..n]);
      assert vs == vs[..m] + [vs[m]] && us == us[..n] + [us[n]];
    }
  }

  lemma FrontClimbs(vs: seq<u64>)
    requires Climbs(vs) && vs != []
    ensures Climbs(vs[..|vs| - 1])
  {
  }

  lemma LastIsGreatest(vs: seq<u64>, us: seq<u64>)
    requires Climbs(vs) && vs != [] && us != [] && forall v: u64 :: v in us ==> v in vs
    ensures us[|us| - 1] <= vs[|vs| - 1]
  {
    var x := us[|us| - 1];
    assert x in vs;
    var i :| 0 <= i < |vs| && vs[i] == x;
    if i < |vs| - 1 {
      ClimbsFar(vs, i, |vs| - 1);
    }
  }

  lemma LastOnlyOnce(vs: seq<u64>, v: u64)
    requires Climbs(vs) && vs != []
    ensures v in vs[..|vs| - 1] <==> v in vs && v != vs[|vs| - 1]
  {
    var m := |vs| - 1;
    if v in vs[..m] {
      var i :| 0 <= i < m && vs[i] == v;
      ClimbsFar(vs, i, m);
    }
    if v in vs && v != vs[m] {
      var i :| 0 <= i < |vs| && vs[i] == v;
      assert vs[..m][i] == v;
    }
  }

  /** And it does not depend on the order of the members. */
  lemma UnionOrderFree(vs: seq<u64>, us: seq<u64>, a: seq<u64>, b: seq<u64>)
    requires multiset(vs) == multiset(us) && Small(vs) && UnionMeans(vs, a) && UnionMeans(us, b)
    ensures a == b
  {
    UnionPermuted(us, vs, b);
    SmallUnionClimbs(vs, a);
    SmallUnionClimbs(vs, b);
    forall v
      ensures v in a <==> v in b
    {
      assert v in multiset(a) ==> v in multiset(vs);
      assert v in multiset(b) ==> v in multiset(vs);
    }
    ClimbsUnique(a, b);
  }
}
