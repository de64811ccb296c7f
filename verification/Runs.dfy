/** What the grouper's scan produces, whatever its test: the cut of a sequence
    into runs, each grown for as long as the next element joins. */
module Runs {
  import opened Seqs

  /** `gs` cuts `s` into non-empty runs; inside a run each element joined the
      members before it, and each new run starts with an element that did not
      join the run before. */
  ghost predicate RunsOf<T>(joins: (seq<T>, T) -> bool, s: seq<T>, gs: seq<seq<T>>) {
    Flatten(gs) == s && AllGrown(joins, gs) && AllClosed(joins, gs)
  }

  ghost predicate Grown<T>(joins: (seq<T>, T) -> bool, g: seq<T>) {
    g != [] && forall k :: 1 <= k < |g| ==> joins(g[..k], g[k])
  }

  ghost predicate AllGrown<T>(joins: (seq<T>, T) -> bool, gs: seq<seq<T>>) {
    forall i :: 0 <= i < |gs| ==> Grown(joins, gs[i])
  }

  ghost predicate AllClosed<T>(joins: (seq<T>, T) -> bool, gs: seq<seq<T>>)
    requires AllGrown(joins, gs)
  {
    forall i :: 0 < i < |gs| ==> !joins(gs[i - 1], gs[i][0])
  }

  function Offset<T>(gs: seq<seq<T>>, i: nat): nat
    requires i <= |gs|
  {
    |Flatten(gs[..i])|
  }

  /** Where the a-th member of the i-th run sits in the whole sequence. */
  lemma {:induction false} MemberPosition<T>(gs: seq<seq<T>>, i: nat, a: nat)
    requires i < |gs| && a < |gs[i]|
    ensures Offset(gs, i) + |gs[i]| == Offset(gs, i + 1) <= |Flatten(gs)|
    ensures Flatten(gs)[Offset(gs, i) + a] == gs[i][a]
  {
    assert gs[..i + 1] == gs[..i] + [gs[i]];
    FlattenSnoc(gs[..i], gs[i]);
    assert gs == gs[..i + 1] + gs[i + 1..];
    FlattenAppend(gs[..i + 1], gs[i + 1..]);
  }

  lemma OffsetsGrow<T>(gs: seq<seq<T>>, i: nat, j: nat)
    requires i <= j <= |gs|
    ensures Offset(gs, i) <= Offset(gs, j)
  {
    assert gs[..j] == gs[..i] + gs[i..j];
    FlattenAppend(gs[..i], gs[i..j]);
  }

  /** Members of an earlier run, and earlier members of a run, come first. */
  lemma MembersInOrder<T>(gs: seq<seq<T>>, i: nat, a: nat, j: nat, b: nat) returns (p: nat, q: nat)
    requires i < |gs| && a < |gs[i]| && j < |gs| && b < |gs[j]|
    requires i < j || (i == j && a < b)
    ensures p < q < |Flatten(gs)| && Flatten(gs)[p] == gs[i][a] && Flatten(gs)[q] == gs[j][b]
    ensures j == i + 1 && a == |gs[i]| - 1 && b == 0 ==> q == p + 1
  {
    MemberPosition(gs, i, a);
    MemberPosition(gs, j, b);
    if i < j {
      OffsetsGrow(gs, i + 1, j);
    }
    p, q := Offset(gs, i) + a, Offset(gs, j) + b;
  }

  lemma AdjacentInRun<T>(gs: seq<seq<T>>, i: nat, k: nat) returns (p: nat)
    requires i < |gs| && 1 <= k < |gs[i]|
    ensures p == Offset(gs, i) + k && 0 < p < |Flatten(gs)|
    ensures Flatten(gs)[p - 1] == gs[i][k - 1] && Flatten(gs)[p] == gs[i][k]
  {
    MemberPosition(gs, i, k - 1);
    MemberPosition(gs, i, k);
    p := Offset(gs, i) + k;
  }

  /** Positions p and q of the whole sequence fall into the same run. */
  ghost predicate SameRun<T>(gs: seq<seq<T>>, p: nat, q: nat) {
    exists i :: 0 <= i < |gs| && InRun(gs, i, p) && InRun(gs, i, q)
  }

  ghost predicate InRun<T>(gs: seq<seq<T>>, i: nat, p: nat)
    requires i < |gs|
  {
    Offset(gs, i) <= p < Offset(gs, i + 1)
  }

  lemma OneRunEach<T>(gs: seq<seq<T>>, i: nat, j: nat, p: nat)
    requires i < |gs| && j < |gs| && InRun(gs, i, p) && InRun(gs, j, p)
    ensures i == j
  {
    if i < j {
      OffsetsGrow(gs, i + 1, j);
    } else if j < i {
      OffsetsGrow(gs, j + 1, i);
    }
  }

  /** The run and place of the element at a position. */
  lemma {:induction false} RunAt<T>(gs: seq<seq<T>>, p: nat) returns (i: nat, a: nat)
    requires p < |Flatten(gs)|
    ensures i < |gs| && a < |gs[i]| && Offset(gs, i) + a == p && InRun(gs, i, p)
    ensures Flatten(gs)[p] == gs[i][a]
  {
    var n := |gs| - 1;
    assert gs[..n + 1] == gs;
    if p < |Flatten(gs[..n])| {
      i, a := RunAt(gs[..n], p);
      assert gs[..n][..i] == gs[..i];
    } else {
      i, a := n, p - |Flatten(gs[..n])|;
    }
    MemberPosition(gs, i, a);
  }

  lemma FlattenCons<T>(gs: seq<seq<T>>)
    requires gs != []
    ensures Flatten(gs) == gs[0] + Flatten(gs[1..])
  {
    assert gs == [gs[0]] + gs[1..];
    FlattenAppend([gs[0]], gs[1..]);
    assert Flatten([gs[0]]) == Flatten([]) + gs[0] == gs[0] by {
      FlattenSnoc([], gs[0]);
      assert [] + [gs[0]] == [gs[0]];
    }
  }

  lemma RunsTail<T>(joins: (seq<T>, T) -> bool, s: seq<T>, gs: seq<seq<T>>)
    requires RunsOf(joins, s, gs) && gs != []
    ensures |gs[0]| <= |s| && RunsOf(joins, s[|gs[0]|..], gs[1..])
  {
    FlattenCons(gs);
    assert AllClosed(joins, gs[1..]) by {
      forall i | 0 < i < |gs[1..]|
        ensures !joins(gs[1..][i - 1], gs[1..][i][0])
      {
        assert gs[1..][i] == gs[i + 1] && gs[1..][i - 1] == gs[i + 1 - 1];
      }
    }
  }

  /** The first run is the shortest prefix the next element does not join. */
  lemma FirstRun<T>(joins: (seq<T>, T) -> bool, s: seq<T>, gs: seq<seq<T>>)
    requires RunsOf(joins, s, gs) && gs != []
    ensures 1 <= |gs[0]| <= |s| && gs[0] == s[..|gs[0]|]
    ensures forall k :: 1 <= k < |gs[0]| ==> joins(s[..k], s[k])
    ensures |gs[0]| < |s| ==> !joins(s[..|gs[0]|], s[|gs[0]|])
  {
    var g := gs[0];
    FlattenCons(gs);
    assert Grown(joins, g);
    forall k | 1 <= k < |g|
      ensures joins(s[..k], s[k])
    {
      assert g[..k] == s[..k];
    }
    if |g| < |s| {
      assert gs[1..] != [];
      FlattenCons(gs[1..]);
      assert Grown(joins, gs[1]);
      assert s[|g|] == gs[1][0];
    }
  }

  /** The test and the sequence leave no choice: there is one cut into runs. */
  lemma {:induction false} RunsUnique<T>(joins: (seq<T>, T) -> bool, s: seq<T>, gs: seq<seq<T>>, hs: seq<seq<T>>)
    requires RunsOf(joins, s, gs) && RunsOf(joins, s, hs)
    ensures gs == hs
    decreases |s|
  {
    if gs != [] {
      FirstRun(joins, s, gs);
    }
    if hs != [] {
      FirstRun(joins, s, hs);
    }
    if gs != [] && hs != [] {
      assert |gs[0]| == |hs[0]|;
      RunsTail(joins, s, gs);
      RunsTail(joins, s, hs);
      RunsUnique(joins, s[|gs[0]|..], gs[1..], hs[1..]);
      assert gs == [gs[0]] + gs[1..] && hs == [hs[0]] + hs[1..];
    }
  }

  /** An element that occurs in one run only occurs there as often as in the
      whole sequence. */
  lemma {:induction false} CountInOneRun<T>(gs: seq<seq<T>>, i: nat, x: T)
    requires i < |gs| && forall j :: 0 <= j < |gs| && j != i ==> x !in gs[j]
    ensures multiset(Flatten(gs))[x] == multiset(gs[i])[x]
  {
    var n := |gs| - 1;
    var front := gs[..n];
    assert multiset(Flatten(gs)) == multiset(Flatten(front)) + multiset(gs[n]);
    if i == n {
      FlattenElements(front);
      assert x !in Flatten(front);
    } else {
      CountInOneRun(front, i, x);
      assert x !in gs[n];
    }
  }

  /** A finished run that the next element did not join starts a new one. */
  lemma RunsOpen<T>(joins: (seq<T>, T) -> bool, s: seq<T>, gs: seq<seq<T>>, g: seq<T>)
    requires RunsOf(joins, s, gs) && Grown(joins, g)
    requires gs != [] ==> !joins(gs[|gs| - 1], g[0])
    ensures RunsOf(joins, s + g, gs + [g])
  {
    FlattenSnoc(gs, g);
  }

  /** There always is a cut into runs. */
  lemma RunsExist<T>(joins: (seq<T>, T) -> bool, s: seq<T>) returns (gs: seq<seq<T>>)
    ensures RunsOf(joins, s, gs)
  {
    gs := [];
    var start := 0;
    while start < |s|
      invariant 0 <= start <= |s| && RunsOf(joins, s[..start], gs)
      invariant gs != [] && start < |s| ==> !joins(gs[|gs| - 1], s[start])
    {
      var end := start + 1;
      while end < |s| && joins(s[start..end], s[end])
        invariant start < end <= |s|
        invariant Grown(joins, s[start..end])
      {
        assert s[start..end + 1][..end - start] == s[start..end];
        assert forall k :: 1 <= k < end - start ==> s[start..end + 1][..k] == s[start..end][..k];
        end := end + 1;
      }
      RunsOpen(joins, s[..start], gs, s[start..end]);
      assert s[..start] + s[start..end] == s[..end];
      gs, start := gs + [s[start..end]], end;
    }
    assert s[..start] == s;
  }
}
