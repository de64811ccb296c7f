/** Sums and counts over value sequences, and that their order does not matter. */
module Folds {
  import opened Bytes
  import opened Seqs

  /** The weights of the elements added up. */
  function SumBy<T>(s: seq<T>, weight: T -> nat): (total: nat) {
    if s == [] then 0 else SumBy(s[..|s| - 1], weight) + weight(s[|s| - 1])
  }

  lemma {:induction false} SumByAppend<T>(s: seq<T>, t: seq<T>, weight: T -> nat)
    ensures SumBy(s + t, weight) == SumBy(s, weight) + SumBy(t, weight)
  {
    if t == [] {
      assert s + t == s;
    } else {
      SumByAppend(s, t[..|t| - 1], weight);
      assert (s + t)[..|s + t| - 1] == s + t[..|t| - 1];
    }
  }

  lemma {:induction false} SumByPermutation<T>(s: seq<T>, t: seq<T>, weight: T -> nat)
    requires multiset(s) == multiset(t)
    ensures SumBy(s, weight) == SumBy(t, weight)
    decreases |s|
  {
    if s == [] {
      assert |multiset(t)| == 0;
    } else {
      var n, x := |s| - 1, s[|s| - 1];
      var i := FindLast(s, t);
      assert t == t[..i] + [x] + t[i + 1..];
      SumByPermutation(s[..n], t[..i] + t[i + 1..], weight);
      SumByAppend(t[..i] + [x], t[i + 1..], weight);
      SumByAppend(t[..i], [x], weight);
      SumByAppend(t[..i], t[i + 1..], weight);
      assert SumBy([x], weight) == SumBy([], weight) + weight(x) by {
        assert [x][..0] == [];
      }
    }
  }

  lemma {:induction false} SumByBounds<T>(s: seq<T>, weight: T -> nat, lo: nat, hi: nat)
    requires forall i :: 0 <= i < |s| ==> lo <= weight(s[i]) <= hi
    ensures lo * |s| <= SumBy(s, weight) <= hi * |s|
  {
    if s != [] {
      var n := |s| - 1;
      SumByBounds(s[..n], weight, lo, hi);
      MulNext(lo, n);
      MulNext(hi, n);
    }
  }

  lemma MulNext(a: nat, n: nat)
    ensures a * (n + 1) == a * n + a
  {
  }

  /** How many elements a test accepts. */
  function Count<T>(s: seq<T>, test: T -> bool): (n: nat) {
    SumBy(s, x => if test(x) then 1 else 0)
  }

  lemma CountPermutation<T>(s: seq<T>, t: seq<T>, test: T -> bool)
    requires multiset(s) == multiset(t)
    ensures Count(s, test) == Count(t, test)
  {
    SumByPermutation(s, t, x => if test(x) then 1 else 0);
  }

  lemma {:induction false} CountUpTo<T>(s: seq<T>, test: T -> bool, k: nat)
    requires k <= |s|
    ensures (forall i :: k <= i < |s| ==> !test(s[i])) ==> Count(s, test) <= k
    ensures (forall i :: 0 <= i < k ==> test(s[i])) ==> k <= Count(s, test)
  {
    if s != [] {
      var n := |s| - 1;
      var w := x => if test(x) then 1 else 0;
      assert Count(s, test) == Count(s[..n], test) + (if test(s[n]) then 1 else 0);
      CountUpTo(s[..n], test, if k <= n then k else n);
      if k == |s| {
        CountAtMost(s[..n], test);
      }
    }
  }

  lemma {:induction false} CountAtMost<T>(s: seq<T>, test: T -> bool)
    ensures Count(s, test) <= |s|
  {
    if s != [] {
      CountAtMost(s[..|s| - 1], test);
    }
  }

  lemma {:induction false} CountPositive<T>(s: seq<T>, test: T -> bool)
    ensures Count(s, test) > 0 <==> exists k :: 0 <= k < |s| && test(s[k])
  {
    if s != [] {
      var n := |s| - 1;
      CountPositive(s[..n], test);
      if k :| 0 <= k < n && test(s[k]) {
        assert test(s[..n][k]);
      }
    }
  }

  lemma {:induction false} CountMonotone<T>(s: seq<T>, p: T -> bool, q: T -> bool)
    requires forall i :: 0 <= i < |s| && p(s[i]) ==> q(s[i])
    ensures Count(s, p) <= Count(s, q)
  {
    if s != [] {
      CountMonotone(s[..|s| - 1], p, q);
    }
  }

  lemma MulBack(p: nat, k: nat, q: nat, m: nat, r: nat)
    requires 1 <= p
    ensures p * k * q + p * m + r == p * (k * q + m) + r
  {
    assert p * k * q == p * (k * q);
  }

  /** Reducing modulo a multiple first changes nothing. */
  lemma ModOfMultiple(s: nat, p: nat, k: nat)
    requires 1 <= p && 1 <= k
    ensures 1 <= p * k && (s % (p * k)) % p == s % p
  {
    MulMonotone1(p, k);
    var n := p * k;
    var q, m := s / n, s % n;
    var q', r := m / p, m % p;
    assert s == n * q + m && m == p * q' + r;
    MulBack(p, k, q, q', r);
    ModUnique(s, p, k * q + q', r);
  }

  lemma MulMonotone1(p: nat, k: nat)
    requires 1 <= p && 1 <= k
    ensures p <= p * k
  {
  }
}
