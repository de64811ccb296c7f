/** The permutation iterator of src/utils.c: an odometer that replaces nested
    loops whose depth is only known when the query is parsed. */
module Odometer {
  import opened Lex

  /** Number of tuples in {1..n[0]} x ... x {1..n[|n|-1]}. */
  function Product(n: seq<nat>): (p: nat)
    ensures (forall i :: 0 <= i < |n| ==> 1 <= n[i]) ==> 1 <= p
  {
    if n == [] then 1 else n[0] * Product(n[1..])
  }

  /** Mixed-radix rank; a zero in the last place, the state before the first
      step, gives -1. */
  function Rank(t: seq<nat>, n: seq<nat>): int
    requires |t| == |n|
  {
    if t == [] then 0 else (t[0] - 1) * Product(n[1..]) + Rank(t[1..], n[1..])
  }

  ghost predicate InBox(t: seq<nat>, n: seq<nat>) {
    && |t| == |n|
    && forall i :: 0 <= i < |n| ==> 1 <= t[i] <= n[i]
  }

  function Ones(b: nat): (t: seq<nat>)
    ensures |t| == b
  {
    seq(b, i => 1)
  }

  function Start(b: nat): (t: seq<nat>)
    requires 1 <= b
    ensures |t| == b
  {
    Ones(b)[b - 1 := 0]
  }

  // ---- the rank is a bijection between the box and 0..Product ----

  lemma {:induction false} OnesRank(n: seq<nat>)
    ensures Rank(Ones(|n|), n) == 0
  {
    if n != [] {
      assert Ones(|n|)[1..] == Ones(|n[1..]|);
      OnesRank(n[1..]);
    }
  }

  lemma {:induction false} LastRank(n: seq<nat>)
    ensures Rank(n, n) == Product(n) - 1
  {
    if n != [] {
      LastRank(n[1..]);
    }
  }

  lemma {:induction false} StartRank(n: seq<nat>)
    requires n != []
    ensures Rank(Start(|n|), n) == -1
  {
    if |n| == 1 {
      assert Product(n[1..]) == 1;
    } else {
      assert Start(|n|)[1..] == Start(|n[1..]|);
      StartRank(n[1..]);
    }
  }

  lemma MulMonotone(a: int, b: int, p: nat)
    requires a <= b
    ensures a * p <= b * p
  {
  }

  lemma {:induction false} RankBounds(t: seq<nat>, n: seq<nat>)
    requires InBox(t, n)
    ensures 0 <= Rank(t, n) < Product(n)
  {
    if n != [] {
      var p := Product(n[1..]);
      RankBounds(t[1..], n[1..]);
      MulMonotone(0, t[0] - 1, p);
      MulMonotone(t[0] - 1, n[0] - 1, p);
      assert (n[0] - 1) * p + p == n[0] * p;
    }
  }

  lemma HeadDecides(t: seq<nat>, u: seq<nat>, n: seq<nat>)
    requires InBox(t, n) && InBox(u, n) && n != [] && t[0] < u[0]
    ensures Rank(t, n) < Rank(u, n)
  {
    RankBounds(t[1..], n[1..]);
    RankBounds(u[1..], n[1..]);
    MulMonotone(t[0], u[0] - 1, Product(n[1..]));
  }

  /** Lexicographic order and order of ranks are the same thing. */
  lemma {:induction false} RankIsLexicographic(t: seq<nat>, u: seq<nat>, n: seq<nat>)
    requires InBox(t, n) && InBox(u, n)
    ensures LexBelow(t, u) <==> Rank(t, n) < Rank(u, n)
    ensures t == u <==> Rank(t, n) == Rank(u, n)
  {
    if n != [] {
      LexUnfold(t, u);
      if t[0] < u[0] {
        HeadDecides(t, u, n);
      } else if u[0] < t[0] {
        HeadDecides(u, t, n);
      } else {
        RankIsLexicographic(t[1..], u[1..], n[1..]);
        assert t == [t[0]] + t[1..] && u == [u[0]] + u[1..];
      }
    }
  }

  // ---- the nested loops the iterator stands for ----

  /** The tuples `for v := 1 to n[0] { for ... }` visits, in loop order. */
  function NestedLoops(n: seq<nat>): (ts: seq<seq<nat>>)
    decreases |n|, 1, 0
  {
    if n == [] then [[]] else OuterLoop(n, n[0])
  }

  /** The iterations 1..v of the outermost loop. */
  function OuterLoop(n: seq<nat>, v: nat): (ts: seq<seq<nat>>)
    requires n != []
    decreases |n|, 0, v
  {
    if v == 0 then [] else OuterLoop(n, v - 1) + PrefixAll(v, NestedLoops(n[1..]))
  }

  function PrefixAll(v: nat, ts: seq<seq<nat>>): (us: seq<seq<nat>>)
    ensures |us| == |ts|
    ensures forall k :: 0 <= k < |ts| ==> us[k] == [v] + ts[k]
  {
    seq(|ts|, k requires 0 <= k < |ts| => [v] + ts[k])
  }

  /** The k-th tuple of the nested loops is the tuple of rank k. */
  lemma {:induction false} NestedLoopsByRank(n: seq<nat>)
    ensures |NestedLoops(n)| == Product(n)
    ensures forall k :: 0 <= k < Product(n) ==>
      InBox(NestedLoops(n)[k], n) && Rank(NestedLoops(n)[k], n) == k
    decreases |n|, 1, 0
  {
    if n != [] {
      OuterLoopByRank(n, n[0]);
    }
  }

  lemma {:induction false} OuterLoopByRank(n: seq<nat>, v: nat)
    requires n != [] && v <= n[0]
    ensures |OuterLoop(n, v)| == v * Product(n[1..])
    ensures forall k :: 0 <= k < v * Product(n[1..]) ==>
      InBox(OuterLoop(n, v)[k], n) && Rank(OuterLoop(n, v)[k], n) == k
    decreases |n|, 0, v
  {
    if v != 0 {
      var p := Product(n[1..]);
      var inner := NestedLoops(n[1..]);
      OuterLoopByRank(n, v - 1);
      NestedLoopsByRank(n[1..]);
      var done := (v - 1) * p;
      forall k | 0 <= k < v * p
        ensures InBox(OuterLoop(n, v)[k], n) && Rank(OuterLoop(n, v)[k], n) == k
      {
        if done <= k {
          var t := OuterLoop(n, v)[k];
          assert t == [v] + inner[k - done];
          assert t[1..] == inner[k - done];
        }
      }
    }
  }

  /** The nested loops visit every tuple of the box, each exactly once. */
  lemma NestedLoopsComplete(n: seq<nat>, t: seq<nat>)
    requires InBox(t, n)
    ensures 0 <= Rank(t, n) < |NestedLoops(n)|
    ensures forall k :: 0 <= k < |NestedLoops(n)| ==> (NestedLoops(n)[k] == t <==> k == Rank(t, n))
  {
    NestedLoopsByRank(n);
    RankBounds(t, n);
    forall k | 0 <= k < |NestedLoops(n)|
      ensures NestedLoops(n)[k] == t <==> k == Rank(t, n)
    {
      RankIsLexicographic(NestedLoops(n)[k], t, n);
    }
  }

  // ---- one step ----

  /** Raising place i by one and putting every later, exhausted place back to
      one raises the rank by exactly one. */
  lemma {:induction false} CarryStep(t: seq<nat>, n: seq<nat>, i: nat)
    requires |t| == |n| && i < |t|
    requires t[i + 1..] == n[i + 1..]
    ensures Rank(t[..i] + [t[i] + 1] + Ones(|t| - i - 1), n) == Rank(t, n) + 1
  {
    var u := t[..i] + [t[i] + 1] + Ones(|t| - i - 1);
    if i == 0 {
      assert u[1..] == Ones(|n[1..]|);
      OnesRank(n[1..]);
      LastRank(n[1..]);
    } else {
      CarryStep(t[1..], n[1..], i - 1);
      assert t[1..][..i - 1] == t[..i][1..];
      assert u[1..] == t[1..][..i - 1] + [t[1..][i - 1] + 1] + Ones(|t[1..]| - (i - 1) - 1);
    }
  }

  class PermutIter {
    const numBranches: nat
    const numFilteredGroups: array<nat>
    const filteredGroupTuple: array<nat>

    /** Either before the first tuple or on a tuple of the box. */
    ghost predicate Valid()
      reads this, numFilteredGroups, filteredGroupTuple
    {
      && 1 <= numBranches == numFilteredGroups.Length == filteredGroupTuple.Length
      && numFilteredGroups != filteredGroupTuple
      && (forall i :: 0 <= i < numBranches ==> 1 <= numFilteredGroups[i])
      && (InBox(filteredGroupTuple[..], numFilteredGroups[..])
          || filteredGroupTuple[..] == Start(numBranches))
    }

    ghost function Position(): int
      requires numFilteredGroups.Length == filteredGroupTuple.Length
      reads numFilteredGroups, filteredGroupTuple
    {
      Rank(filteredGroupTuple[..], numFilteredGroups[..])
    }

    constructor (counts: seq<nat>)
      requires 1 <= |counts|
      ensures numBranches == |counts|
      ensures numFilteredGroups.Length == filteredGroupTuple.Length == |counts|
      ensures numFilteredGroups != filteredGroupTuple
      ensures fresh(numFilteredGroups) && fresh(filteredGroupTuple)
    {
      numBranches := |counts|;
      numFilteredGroups := new nat[|counts|];
      filteredGroupTuple := new nat[|counts|];
    }
  }

  /** `iter_init`: no iterator when some branch has no filtered group, otherwise
      one that stands just before the first tuple. */
  method IterInit(counts: seq<nat>) returns (iter: PermutIter?)
    requires 1 <= |counts|
    ensures iter == null <==> 0 in counts
    ensures iter != null ==> fresh(iter) && fresh(iter.numFilteredGroups) && fresh(iter.filteredGroupTuple)
    ensures iter != null ==> iter.Valid() && iter.numFilteredGroups[..] == counts && iter.Position() == -1
  {
    iter := new PermutIter(counts);
    for i := 0 to |counts|
      invariant iter != null && fresh(iter) && fresh(iter.numFilteredGroups) && fresh(iter.filteredGroupTuple)
      invariant iter.numBranches == iter.numFilteredGroups.Length == iter.filteredGroupTuple.Length == |counts|
      invariant iter.numFilteredGroups != iter.filteredGroupTuple
      invariant iter.numFilteredGroups[..i] == counts[..i]
      invariant iter.filteredGroupTuple[..i] == Ones(i)
      invariant forall k :: 0 <= k < i ==> 1 <= counts[k]
    {
      iter.filteredGroupTuple[i] := 1;
      iter.numFilteredGroups[i] := counts[i];
      if iter.numFilteredGroups[i] == 0 {
        return null;
      }
    }
    iter.filteredGroupTuple[iter.numBranches - 1] := 0;
    assert iter.numFilteredGroups[..] == counts;
    assert iter.filteredGroupTuple[..] == Start(|counts|);
    StartRank(counts);
  }

  /** `iter_next`: moves to the tuple of the next rank and says so, or, on the
      tuple of the highest rank, goes back to all ones and reports the end. */
  method IterNext(iter: PermutIter) returns (more: bool)
    requires iter.Valid()
    modifies iter.filteredGroupTuple
    ensures iter.Valid() && iter.numFilteredGroups[..] == old(iter.numFilteredGroups[..])
    ensures more <==> old(iter.Position()) + 1 < Product(iter.numFilteredGroups[..])
    ensures more ==> iter.Position() == old(iter.Position()) + 1
    ensures InBox(iter.filteredGroupTuple[..], iter.numFilteredGroups[..])
    ensures !more ==> iter.filteredGroupTuple[..] == Ones(iter.numBranches)
  {
    var tuple, counts := iter.filteredGroupTuple, iter.numFilteredGroups;
    ghost var was, n := tuple[..], counts[..];
    StepPossible(was, n);
    var i := iter.numBranches - 1;
    while 0 <= i
      invariant -1 <= i < iter.numBranches
      invariant counts[..] == n
      invariant forall k :: 0 <= k <= i ==> tuple[k] == was[k]
      invariant forall k :: i < k < iter.numBranches ==> was[k] == n[k] && tuple[k] == 1
    {
      if tuple[i] < counts[i] {
        tuple[i] := tuple[i] + 1;
        StepDone(was, n, i, tuple[..]);
        return true;
      } else {
        tuple[i] := 1;
      }
      i := i - 1;
    }
    assert was == n;
    LastRank(n);
    assert tuple[..] == Ones(iter.numBranches);
    return false;
  }

  lemma StepDone(was: seq<nat>, n: seq<nat>, i: nat, now: seq<nat>)
    requires |was| == |now| == |n| && i < |n|
    requires forall k :: 0 <= k < |n| ==> 1 <= n[k]
    requires InBox(was, n) || was == Start(|n|)
    requires was[i] < n[i] && now[i] == was[i] + 1
    requires forall k :: 0 <= k < i ==> now[k] == was[k]
    requires forall k :: i < k < |n| ==> was[k] == n[k] && now[k] == 1
    ensures InBox(now, n) && Rank(now, n) == Rank(was, n) + 1 < Product(n)
  {
    assert was[i + 1..] == n[i + 1..];
    assert now == was[..i] + [was[i] + 1] + Ones(|was| - i - 1);
    CarryStep(was, n, i);
    RankBounds(now, n);
  }

  /** Every state of a valid iterator is component-wise at most the counts. */
  lemma StepPossible(t: seq<nat>, n: seq<nat>)
    requires 1 <= |t| == |n| && forall i :: 0 <= i < |n| ==> 1 <= n[i]
    requires InBox(t, n) || t == Start(|n|)
    ensures forall i :: 0 <= i < |n| ==> t[i] <= n[i]
    ensures -1 <= Rank(t, n) < Product(n)
  {
    if t == Start(|n|) {
      StartRank(n);
    } else {
      RankBounds(t, n);
    }
  }
}
