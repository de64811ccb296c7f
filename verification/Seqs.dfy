/** Sequence helpers shared by the stages. */
module Seqs {

  /** The elements of `s` that `keep` accepts, in order. */
  function Filter<T>(s: seq<T>, keep: T -> bool): (r: seq<T>)
    ensures |r| <= |s|
  {
    if s == [] then [] else
      var last := s[|s| - 1];
      Filter(s[..|s| - 1], keep) + (if keep(last) then [last] else [])
  }

  lemma {:induction false} FilterMembers<T>(s: seq<T>, keep: T -> bool, x: T)
    ensures x in Filter(s, keep) <==> x in s && keep(x)
  {
    if s != [] {
      FilterMembers(s[..|s| - 1], keep, x);
      assert s == s[..|s| - 1] + [s[|s| - 1]];
    }
  }

  lemma FilterStep<T>(s: seq<T>, keep: T -> bool, i: nat)
    requires i < |s|
    ensures Filter(s[..i + 1], keep) == Filter(s[..i], keep) + (if keep(s[i]) then [s[i]] else [])
  {
    assert s[..i + 1][..i] == s[..i];
  }

  /** A stricter test keeps the same elements exactly when it agrees everywhere. */
  lemma {:induction false} FilterAgree<T>(s: seq<T>, p: T -> bool, q: T -> bool)
    requires forall x :: x in s && p(x) ==> q(x)
    ensures |Filter(s, p)| <= |Filter(s, q)|
    ensures Filter(s, p) == Filter(s, q) <==> forall x :: x in s && q(x) ==> p(x)
  {
    if s != [] {
      var front, last := s[..|s| - 1], s[|s| - 1];
      assert s == front + [last];
      FilterAgree(front, p, q);
      if p(last) == q(last) {
        SnocCancel(Filter(front, p), Filter(front, q), last);
        assert Filter(front, p) + [] == Filter(front, p) && Filter(front, q) + [] == Filter(front, q);
      } else {
        assert last in s && q(last) && !p(last);
        assert |Filter(s, p)| < |Filter(s, q)|;
      }
    }
  }

  /** Filtering by a test that a stricter one implies is absorbed by it. */
  lemma {:induction false} FilterTwice<T>(s: seq<T>, p: T -> bool, q: T -> bool)
    requires forall x :: x in s && q(x) ==> p(x)
    ensures Filter(Filter(s, p), q) == Filter(s, q)
  {
    if s != [] {
      var front, last := s[..|s| - 1], s[|s| - 1];
      FilterTwice(front, p, q);
      var kept := Filter(front, p);
      assert (kept + [last])[..|kept|] == kept && kept + [] == kept;
    }
  }

  /** What is kept is kept in order. */
  lemma {:induction false} FilterPositions<T>(s: seq<T>, keep: T -> bool, p: nat, q: nat) returns (i: nat, j: nat)
    requires p < q < |Filter(s, keep)|
    ensures i < j < |s| && s[i] == Filter(s, keep)[p] && s[j] == Filter(s, keep)[q]
  {
    var n := |s| - 1;
    var front := Filter(s[..n], keep);
    if q < |front| {
      i, j := FilterPositions(s[..n], keep, p, q);
    } else {
      i, j := FilterPosition(s[..n], keep, p), n;
    }
  }

  ghost function FilterPosition<T>(s: seq<T>, keep: T -> bool, p: nat): (i: nat)
    requires p < |Filter(s, keep)|
    ensures i < |s| && s[i] == Filter(s, keep)[p]
  {
    var n := |s| - 1;
    if p < |Filter(s[..n], keep)| then FilterPosition(s[..n], keep, p) else n
  }

  lemma SnocCancel<T>(a: seq<T>, b: seq<T>, x: T)
    ensures a + [x] == b + [x] <==> a == b
  {
    if a + [x] == b + [x] {
      assert a == (a + [x])[..|a + [x]| - 1] == (b + [x])[..|b + [x]| - 1] == b;
    }
  }

  ghost predicate NoRepeats<T>(s: seq<T>) {
    forall i, j :: 0 <= i < j < |s| ==> s[i] != s[j]
  }

  /** Two elements trade places. */
  function Exchanged<T>(s: seq<T>, i: nat, j: nat): (t: seq<T>)
    requires i < j < |s|
    ensures |t| == |s| && multiset(t) == multiset(s)
  {
    s[i := s[j]][j := s[i]]
  }

  function Mapped<T, U>(s: seq<T>, f: T -> U): (r: seq<U>)
    ensures |r| == |s| && forall i :: 0 <= i < |s| ==> r[i] == f(s[i])
  {
    seq(|s|, i requires 0 <= i < |s| => f(s[i]))
  }

  /** Where a permutation has the last element, and that the rest permute too. */
  lemma FindLast<T>(s: seq<T>, t: seq<T>) returns (i: nat)
    requires multiset(s) == multiset(t) && s != []
    ensures i < |t| && t[i] == s[|s| - 1]
    ensures multiset(s[..|s| - 1]) == multiset(t[..i] + t[i + 1..])
  {
    var n, x := |s| - 1, s[|s| - 1];
    assert s == s[..n] + [x];
    assert x in multiset(t);
    i :| 0 <= i < |t| && t[i] == x;
    assert t == t[..i] + [x] + t[i + 1..];
    assert multiset(s) == multiset(s[..n]) + multiset{x};
    assert multiset(t) == multiset(t[..i] + t[i + 1..]) + multiset{x};
    assert multiset(s[..n]) == multiset(s) - multiset{x} == multiset(t[..i] + t[i + 1..]);
  }

  lemma {:induction false} MapPermuted<T, U>(s: seq<T>, t: seq<T>, f: T -> U)
    requires multiset(s) == multiset(t)
    ensures multiset(Mapped(s, f)) == multiset(Mapped(t, f))
  {
    if s == [] {
      assert |multiset(t)| == 0;
    } else {
      var n, y := |s| - 1, f(s[|s| - 1]);
      var i := FindLast(s, t);
      MapPermuted(s[..n], t[..i] + t[i + 1..], f);
      var front, back := Mapped(t[..i], f), Mapped(t[i + 1..], f);
      assert Mapped(s, f) == Mapped(s[..n], f) + [y];
      assert Mapped(t, f) == front + [y] + back;
      assert Mapped(t[..i] + t[i + 1..], f) == front + back;
    }
  }

  /** The pieces put one after the other. */
  function Flatten<T>(ss: seq<seq<T>>): (r: seq<T>) {
    if ss == [] then [] else Flatten(ss[..|ss| - 1]) + ss[|ss| - 1]
  }

  lemma FlattenSnoc<T>(ss: seq<seq<T>>, s: seq<T>)
    ensures Flatten(ss + [s]) == Flatten(ss) + s
  {
    assert (ss + [s])[..|ss|] == ss;
  }

  lemma {:induction false} FlattenAppend<T>(xs: seq<seq<T>>, ys: seq<seq<T>>)
    ensures Flatten(xs + ys) == Flatten(xs) + Flatten(ys)
  {
    if ys == [] {
      assert xs + ys == xs;
    } else {
      var front := ys[..|ys| - 1];
      assert (xs + ys)[..|xs + ys| - 1] == xs + front;
      FlattenAppend(xs, front);
    }
  }

  lemma {:induction false} FlattenElements<T>(ss: seq<seq<T>>)
    ensures forall i, x :: 0 <= i < |ss| && x in ss[i] ==> x in Flatten(ss)
    ensures forall x :: x in Flatten(ss) ==> exists i :: 0 <= i < |ss| && x in ss[i]
  {
    if ss != [] {
      var front := ss[..|ss| - 1];
      FlattenElements(front);
      forall x | x in Flatten(ss)
        ensures exists i :: 0 <= i < |ss| && x in ss[i]
      {
        if x in Flatten(front) {
          var i :| 0 <= i < |front| && x in front[i];
          assert x in ss[i];
        }
      }
    }
  }

  /** How often `x` occurs in `s`. */
  ghost function Occurs<T>(s: seq<T>, x: T): (n: nat)
    ensures 0 < n <==> x in s
  {
    multiset(s)[x]
  }

  lemma OccursAppend<T>(a: seq<T>, b: seq<T>, x: T)
    ensures Occurs(a + b, x) == Occurs(a, x) + Occurs(b, x)
  {
  }

  lemma OccursPermuted<T>(a: seq<T>, b: seq<T>, x: T)
    requires multiset(a) == multiset(b)
    ensures Occurs(a, x) == Occurs(b, x)
  {
  }
}
