/** src/grouper.c: for every clause, sort the record pointers in place and cut
    the sorted array into groups in one pass. */
module Grouper {
  import opened Aggregates
  import opened Bytes
  import opened Cooked
  import opened Folds
  import opened KeyGroups
  import opened Query
  import opened Runs
  import opened Seqs
  import opened Sorting

  function MembersOf(gs: seq<GroupView>): (ms: seq<seq<Record>>)
    ensures |ms| == |gs|
    ensures forall i :: 0 <= i < |gs| ==> ms[i] == gs[i].members
  {
    seq(|gs|, i requires 0 <= i < |gs| => gs[i].members)
  }

  ghost predicate AllFinished(io: Io, q: BranchQuery, gs: seq<GroupView>) {
    forall i :: 0 <= i < |gs| ==> Finished(io, q, gs[i])
  }

  /** What one clause contributes: `s` is some sorted permutation of the filtered
      records and the groups are its runs. */
  ghost predicate ClauseGroups(io: Io, q: BranchQuery, c: GrouperClause, filtered: seq<Record>,
                               s: seq<Record>, gs: seq<GroupView>) {
    && SortedBy(c, s) && multiset(s) == multiset(filtered)
    && RunsOf(JoinTest(c), s, MembersOf(gs))
    && AllFinished(io, q, gs)
  }

  /** What the whole grouper returns: nothing for nothing, one group of
      everything without clauses, else the clauses' groups one after the other. */
  ghost predicate Grouped(io: Io, q: BranchQuery, filtered: seq<Record>, groups: seq<GroupView>,
                          segments: seq<seq<GroupView>>, sorted: seq<seq<Record>>) {
    if filtered == [] then groups == []
    else if q.grouperClauses == [] then
      |groups| == 1 && groups[0].members == filtered && Finished(io, q, groups[0])
    else
      && |segments| == |sorted| == |q.grouperClauses| && groups == Flatten(segments)
      && forall l :: 0 <= l < |segments| ==>
        ClauseGroups(io, q, q.grouperClauses[l], filtered, sorted[l], segments[l])
  }

  // ---- the scan ----

  /** The record at position k joins the members from position `first` on. */
  predicate JoinedAt(c: GrouperClause, s: seq<Record>, first: nat, k: nat)
    requires first < k < |s|
  {
    ClauseJoins(c, s[first..k], s[k])
  }

  /** From `first` to `last` each record joined; the next, if any, did not. */
  ghost predicate RunEnds(c: GrouperClause, s: seq<Record>, first: nat, last: nat) {
    && first <= last < |s|
    && (forall k :: first < k <= last ==> JoinedAt(c, s, first, k))
    && (last + 1 < |s| ==> !JoinedAt(c, s, first, last + 1))
  }

  /** The term loop of the scan. */
  method TermsMatch(c: GrouperClause, members: seq<Record>, r: Record) returns (matched: bool)
    requires members != []
    ensures matched <==> ClauseJoins(c, members, r)
  {
    var k := 0;
    while k < |c|
      invariant 0 <= k <= |c|
      invariant forall j :: 0 <= j < k ==> TermJoins(c[j], members, r)
    {
      if !TermJoins(c[k], members, r) {
        return false;
      }
      k := k + 1;
    }
    return true;
  }

  /** The positions lo..hi-1. */
  ghost function Positions(lo: nat, hi: nat): (ps: seq<nat>)
    ensures |ps| == if lo <= hi then hi - lo else 0
  {
    seq(if lo <= hi then hi - lo else 0, k => lo + k)
  }

  lemma PositionsSnoc(lo: nat, hi: nat)
    requires lo <= hi
    ensures Positions(lo, hi) + [hi] == Positions(lo, hi + 1)
  {
  }

  lemma SliceSnoc(s: seq<Record>, lo: nat, hi: nat)
    requires lo <= hi < |s|
    ensures s[lo..hi] + [s[hi]] == s[lo..hi + 1]
  {
  }

  lemma PositionsJoin(lo: nat, mid: nat, hi: nat)
    requires lo <= mid <= hi
    ensures Positions(lo, mid) + Positions(mid, hi) == Positions(lo, hi)
  {
  }

  /** A group the scan is still growing. */
  ghost predicate Growing(io: Io, group: Group)
    reads group
  {
    && TimeHull(io, group.members, group.startTs, group.endTs)
    && group.aggrRecord == Zeros(io.recSize) && group.aggrset == [] && group.members != []
  }

  /** One comparison: the record becomes the next member or is refused. */
  method TryJoin(io: Io, c: GrouperClause, group: Group, r: Record) returns (joined: bool)
    requires Growing(io, group)
    modifies group
    ensures Growing(io, group)
    ensures joined <==> ClauseJoins(c, old(group.members), r)
    ensures joined ==> group.members == old(group.members) + [r]
    ensures !joined ==> group.members == old(group.members)
  {
    joined := TermsMatch(c, group.members, r);
    if joined {
      group.Add(io, r);
    }
  }

  /** One group: from `first` on, as long as the next record joins; a record that
      does not join is stepped back from. */
  method ScanGroup(io: Io, c: GrouperClause, a: array<Record?>, n: nat, first: nat)
    returns (group: Group, last: nat, ghost tested: seq<nat>)
    requires Filled(a, n) && first < n
    ensures fresh(group) && Growing(io, group)
    ensures RunEnds(c, Records(a, n), first, last) && group.members == Records(a, n)[first..last + 1]
    ensures tested == Positions(first + 1, if last + 1 < n then last + 2 else n)
  {
    hide TimeHull, TermJoins;
    ghost var s := Records(a, n);
    group := new Group(io, a[first]);
    var current, lastItem := first, n - 1;
    tested := [];
    while current != lastItem
      invariant first <= current <= lastItem && fresh(group) && Growing(io, group)
      invariant group.members == s[first..current + 1]
      invariant forall k :: first < k <= current ==> JoinedAt(c, s, first, k)
      invariant tested == Positions(first + 1, current + 1)
      decreases lastItem - current
    {
      current := current + 1;
      PositionsSnoc(first + 1, current);
      SliceSnoc(s, first, current);
      tested := tested + [current];
      var joined := TryJoin(io, c, group, a[current]);
      assert joined <==> JoinedAt(c, s, first, current);
      if !joined {
        current := current - 1;
        break;
      }
    }
    last := current;
  }

  /** A scanned group, finished and frozen. */
  method NextGroup(io: Io, q: BranchQuery, c: GrouperClause, a: array<Record?>, n: nat, first: nat)
    returns (view: GroupView, last: nat, ghost tested: seq<nat>)
    requires Filled(a, n) && first < n && InBounds(io, q)
    ensures Finished(io, q, view)
    ensures RunEnds(c, Records(a, n), first, last) && view.members == Records(a, n)[first..last + 1]
    ensures tested == Positions(first + 1, if last + 1 < n then last + 2 else n)
  {
    var group;
    group, last, tested := ScanGroup(io, c, a, n, first);
    group.Finish(io, q);
    view := group.View();
  }

  /** The groups so far cut the first `current` records into runs, the last of
      them ended for good. */
  ghost predicate Scanned(c: GrouperClause, s: seq<Record>, current: nat, groups: seq<GroupView>) {
    && current <= |s| && RunsOf(JoinTest(c), s[..current], MembersOf(groups))
    && (groups != [] && current < |s| ==> !JoinTest(c)(groups[|groups| - 1].members, s[current]))
  }

  /** What the scan found is a run of the join test, and ended for good. */
  lemma ScannedRun(c: GrouperClause, s: seq<Record>, first: nat, last: nat)
    requires RunEnds(c, s, first, last)
    ensures Grown(JoinTest(c), s[first..last + 1])
    ensures last + 1 < |s| ==> !JoinTest(c)(s[first..last + 1], s[last + 1])
  {
    hide ClauseJoins;
    var g := s[first..last + 1];
    forall k | 1 <= k < |g|
      ensures JoinTest(c)(g[..k], g[k])
    {
      assert JoinedAt(c, s, first, first + k);
      assert g[..k] == s[first..first + k];
    }
  }

  lemma ScannedMore(c: GrouperClause, s: seq<Record>, current: nat, groups: seq<GroupView>,
                    view: GroupView, last: nat)
    requires Scanned(c, s, current, groups) && RunEnds(c, s, current, last)
    requires view.members == s[current..last + 1]
    ensures Scanned(c, s, last + 1, groups + [view])
  {
    hide ClauseJoins, RunsOf, Grown;
    ScannedRun(c, s, current, last);
    RunsOpen(JoinTest(c), s[..current], MembersOf(groups), view.members);
    assert s[..current] + s[current..last + 1] == s[..last + 1];
    assert MembersOf(groups + [view]) == MembersOf(groups) + [view.members];
  }

  lemma NothingScanned(io: Io, q: BranchQuery, c: GrouperClause, s: seq<Record>)
    ensures Scanned(c, s, 0, []) && AllFinished(io, q, [])
  {
    assert MembersOf([]) == [] && s[..0] == [];
  }

  lemma OneMoreFinished(io: Io, q: BranchQuery, gs: seq<GroupView>, view: GroupView)
    requires AllFinished(io, q, gs) && Finished(io, q, view)
    ensures AllFinished(io, q, gs + [view])
  {
  }

  /** The scan has reached the end of the sorted array. */
  lemma ScannedAll(io: Io, q: BranchQuery, c: GrouperClause, filtered: seq<Record>, s: seq<Record>,
                   gs: seq<GroupView>)
    requires SortedBy(c, s) && multiset(s) == multiset(filtered)
    requires Scanned(c, s, |s|, gs) && AllFinished(io, q, gs)
    ensures ClauseGroups(io, q, c, filtered, s, gs)
  {
    hide SortedBy, AllFinished;
    assert s[..|s|] == s;
  }

  /** Positions compared before the scan reaches `current`. */
  ghost function TestedUpTo(current: nat, n: nat): seq<nat> {
    Positions(1, if current < n then current + 1 else n)
  }

  /** One clause: sort in place, mark the end, scan. Each position but the first
      is compared exactly once, and the scan stops at the mark. */
  method GroupByClause(io: Io, q: BranchQuery, c: GrouperClause, a: array<Record?>, n: nat)
    returns (groups: seq<GroupView>, ghost tested: seq<nat>)
    requires 1 <= n < a.Length && Filled(a, n) && InBounds(io, q)
    modifies a
    ensures Filled(a, n) && a[n] == null && multiset(Records(a, n)) == multiset(old(Records(a, n)))
    ensures ClauseGroups(io, q, c, old(Records(a, n)), Records(a, n), groups)
    ensures tested == Positions(1, n)
  {
    hide Finished, SortedBy, Scanned, AllFinished, RunEnds, ClauseGroups;
    QsortR(c, a, n);
    ghost var s := Records(a, n);
    a[n] := null;
    assert Records(a, n) == s;
    groups, tested := [], [];
    NothingScanned(io, q, c, s);
    var current := 0;
    while a[current] != null
      invariant 0 <= current <= n && Filled(a, n) && a[n] == null && Records(a, n) == s
      invariant Scanned(c, s, current, groups)
      invariant AllFinished(io, q, groups)
      invariant tested == TestedUpTo(current, n)
      decreases n - current
    {
      var view, last, t := NextGroup(io, q, c, a, n, current);
      ScannedMore(c, s, current, groups, view, last);
      OneMoreFinished(io, q, groups, view);
      RunEndsInside(c, s, current, last);
      PositionsJoin(1, current + 1, if last + 1 < n then last + 2 else n);
      groups, tested := groups + [view], tested + t;
      current := last + 1;
    }
    ScannedAll(io, q, c, old(Records(a, n)), s, groups);
  }

  lemma RunEndsInside(c: GrouperClause, s: seq<Record>, first: nat, last: nat)
    requires RunEnds(c, s, first, last)
    ensures first <= last < |s|
  {
  }

  /** `grouper`. */
  method GroupRecords(io: Io, q: BranchQuery, a: array<Record?>, n: nat)
    returns (groups: seq<GroupView>, segments: seq<seq<GroupView>>, sorted: seq<seq<Record>>)
    requires n < a.Length && Filled(a, n) && InBounds(io, q)
    modifies a
    ensures Filled(a, n) && multiset(Records(a, n)) == multiset(old(Records(a, n)))
    ensures Grouped(io, q, old(Records(a, n)), groups, segments, sorted)
  {
    hide Finished, ClauseGroups;
    ghost var filtered := Records(a, n);
    groups, segments, sorted := [], [], [];
    if n == 0 {
      return;
    }
    if |q.grouperClauses| == 0 {
      var view := OneGroup(io, q, a, n);
      groups := [view];
    } else {
      for l := 0 to |q.grouperClauses|
        invariant Filled(a, n) && multiset(Records(a, n)) == multiset(filtered)
        invariant |segments| == |sorted| == l && groups == Flatten(segments)
        invariant forall k :: 0 <= k < l ==>
          ClauseGroups(io, q, q.grouperClauses[k], filtered, sorted[k], segments[k])
      {
        ghost var before := Records(a, n);
        var gs, tested := GroupByClause(io, q, q.grouperClauses[l], a, n);
        InputOrderFree(io, q, q.grouperClauses[l], before, filtered, Records(a, n), gs);
        FlattenSnoc(segments, gs);
        groups, segments, sorted := groups + gs, segments + [gs], sorted + [Records(a, n)];
      }
    }
  }

  lemma InputOrderFree(io: Io, q: BranchQuery, c: GrouperClause, before: seq<Record>, filtered: seq<Record>,
                       s: seq<Record>, gs: seq<GroupView>)
    requires ClauseGroups(io, q, c, before, s, gs) && multiset(before) == multiset(filtered)
    ensures ClauseGroups(io, q, c, filtered, s, gs)
  {
  }

  /** Without clauses all filtered records form one group. */
  method OneGroup(io: Io, q: BranchQuery, a: array<Record?>, n: nat) returns (view: GroupView)
    requires 1 <= n && Filled(a, n) && InBounds(io, q)
    ensures view.members == Records(a, n) && Finished(io, q, view)
  {
    hide TimeHull, Finished;
    ghost var s := Records(a, n);
    var group := new Group(io, a[0]);
    for i := 1 to n
      invariant fresh(group) && group.members == s[..i]
      invariant TimeHull(io, group.members, group.startTs, group.endTs)
      invariant group.aggrRecord == Zeros(io.recSize) && group.aggrset == []
    {
      group.Add(io, a[i]);
    }
    assert s[..n] == s;
    group.Finish(io, q);
    view := group.View();
  }

  // ---- partition ----

  /** The members of one clause's groups, one after the other, are its sorted
      array: a permutation of the filtered records. */
  lemma ClausePartitions(io: Io, q: BranchQuery, c: GrouperClause, filtered: seq<Record>,
                         s: seq<Record>, gs: seq<GroupView>)
    requires ClauseGroups(io, q, c, filtered, s, gs)
    ensures multiset(Flatten(MembersOf(gs))) == multiset(filtered)
    ensures forall i :: 0 <= i < |gs| ==> gs[i].members != []
  {
    forall i | 0 <= i < |gs|
      ensures gs[i].members != []
    {
      assert Grown(JoinTest(c), MembersOf(gs)[i]);
    }
  }

  lemma MembersOfAppend(xs: seq<GroupView>, ys: seq<GroupView>)
    ensures MembersOf(xs + ys) == MembersOf(xs) + MembersOf(ys)
  {
  }

  /** Over L clauses every filtered record is a member exactly L times as often
      as it was filtered, although each clause re-sorts the same array. */
  lemma {:induction false} OncePerClause(io: Io, q: BranchQuery, filtered: seq<Record>,
                                         segments: seq<seq<GroupView>>, sorted: seq<seq<Record>>, r: Record)
    requires |segments| == |sorted| <= |q.grouperClauses|
    requires forall l :: 0 <= l < |segments| ==>
      ClauseGroups(io, q, q.grouperClauses[l], filtered, sorted[l], segments[l])
    ensures Occurs(Flatten(MembersOf(Flatten(segments))), r) == |segments| * Occurs(filtered, r)
  {
    hide ClauseGroups, Occurs, Flatten, MembersOf;
    if segments == [] {
      NoMembers(r);
    } else {
      var n := |segments| - 1;
      OncePerClause(io, q, filtered, segments[..n], sorted[..n], r);
      ClausePartitions(io, q, q.grouperClauses[n], filtered, sorted[n], segments[n]);
      OneMoreSegment(segments, r);
      OccursPermuted(Flatten(MembersOf(segments[n])), filtered, r);
      NextMul(n, Occurs(filtered, r));
    }
  }

  lemma NoMembers(r: Record)
    ensures Occurs(Flatten(MembersOf(Flatten([]))), r) == 0
  {
    assert MembersOf([]) == [];
  }

  lemma OneMoreSegment(segments: seq<seq<GroupView>>, r: Record)
    requires segments != []
    ensures var n := |segments| - 1;
      Occurs(Flatten(MembersOf(Flatten(segments))), r)
      == Occurs(Flatten(MembersOf(Flatten(segments[..n]))), r) + Occurs(Flatten(MembersOf(segments[n])), r)
  {
    hide Occurs;
    var n := |segments| - 1;
    MembersOfAppend(Flatten(segments[..n]), segments[n]);
    FlattenAppend(MembersOf(Flatten(segments[..n])), MembersOf(segments[n]));
    OccursAppend(Flatten(MembersOf(Flatten(segments[..n]))), Flatten(MembersOf(segments[n])), r);
  }

  lemma NextMul(n: nat, m: nat)
    ensures (n + 1) * m == n * m + m
  {
  }

  /** A record is a member of some group iff it was filtered. */
  lemma MembersAreFiltered(io: Io, q: BranchQuery, filtered: seq<Record>, groups: seq<GroupView>,
                           segments: seq<seq<GroupView>>, sorted: seq<seq<Record>>, r: Record)
    requires Grouped(io, q, filtered, groups, segments, sorted)
    ensures r in filtered <==> exists i :: 0 <= i < |groups| && r in groups[i].members
  {
    hide ClauseGroups, Finished, Occurs;
    var ms := MembersOf(groups);
    FlattenElements(ms);
    if filtered != [] && q.grouperClauses == [] {
      assert r in groups[0].members <==> r in filtered;
    } else if filtered != [] {
      OncePerClause(io, q, filtered, segments, sorted, r);
      PositiveProduct(|segments|, Occurs(filtered, r));
      assert r in Flatten(ms) <==> r in filtered;
      if exists i :: 0 <= i < |groups| && r in groups[i].members {
        var i :| 0 <= i < |groups| && r in groups[i].members;
        assert r in ms[i];
      }
      if r in Flatten(ms) {
        var i :| 0 <= i < |ms| && r in ms[i];
        assert r in groups[i].members;
      }
    }
  }

  lemma PositiveProduct(k: nat, m: nat)
    requires 1 <= k
    ensures k * m > 0 <==> m > 0
  {
  }

  // ---- time ----

  lemma MemberIsFiltered(io: Io, q: BranchQuery, c: GrouperClause, filtered: seq<Record>,
                         s: seq<Record>, gs: seq<GroupView>, i: nat, r: Record)
    requires ClauseGroups(io, q, c, filtered, s, gs) && i < |gs| && r in gs[i].members
    ensures r in filtered
  {
    hide Finished, SortedBy;
    FlattenElements(MembersOf(gs));
    assert r in MembersOf(gs)[i];
    assert r in s;
    assert r in multiset(s);
  }

  /** The member a group has its start or its end from. */
  lemma SpanFrom(io: Io, q: BranchQuery, c: GrouperClause, filtered: seq<Record>,
                 s: seq<Record>, gs: seq<GroupView>, i: nat) returns (first: Record, last: Record)
    requires ClauseGroups(io, q, c, filtered, s, gs) && i < |gs|
    ensures first in filtered && StartTS(io, first) == gs[i].startTs
    ensures last in filtered && EndTS(io, last) == gs[i].endTs
  {
    var g := gs[i];
    assert Finished(io, q, g);
    TimeHullMeans(io, g.members, g.startTs, g.endTs);
    first :| first in g.members && StartTS(io, first) == g.startTs;
    last :| last in g.members && EndTS(io, last) == g.endTs;
    MemberIsFiltered(io, q, c, filtered, s, gs, i, first);
    MemberIsFiltered(io, q, c, filtered, s, gs, i, last);
  }

  /** The group a filtered record is in; it lies within the group's span. */
  lemma GroupOf(io: Io, q: BranchQuery, c: GrouperClause, filtered: seq<Record>,
                s: seq<Record>, gs: seq<GroupView>, r: Record) returns (i: nat)
    requires ClauseGroups(io, q, c, filtered, s, gs) && r in filtered
    ensures i < |gs| && r in gs[i].members
    ensures gs[i].startTs <= StartTS(io, r) && EndTS(io, r) <= gs[i].endTs
  {
    assert r in multiset(filtered);
    assert r in s;
    var a;
    i, a := WhereIs(MembersOf(gs), r);
    assert Finished(io, q, gs[i]);
    TimeHullMeans(io, gs[i].members, gs[i].startTs, gs[i].endTs);
  }

  /** The hull of the groups' time spans is the time span of all filtered
      records: no clause gains or loses time. */
  lemma HullOfGroups(io: Io, q: BranchQuery, c: GrouperClause, filtered: seq<Record>,
                     s: seq<Record>, gs: seq<GroupView>, lo: u64, hi: u64)
    requires ClauseGroups(io, q, c, filtered, s, gs)
    requires Earliest(io, filtered, lo) && Latest(io, filtered, hi)
    ensures forall i :: 0 <= i < |gs| ==> lo <= gs[i].startTs && gs[i].endTs <= hi
    ensures exists i :: 0 <= i < |gs| && gs[i].startTs == lo
    ensures exists i :: 0 <= i < |gs| && gs[i].endTs == hi
  {
    hide ClauseGroups, StartTS, EndTS;
    forall i | 0 <= i < |gs|
      ensures lo <= gs[i].startTs && gs[i].endTs <= hi
    {
      var first, last := SpanFrom(io, q, c, filtered, s, gs, i);
    }
    var first :| first in filtered && StartTS(io, first) == lo;
    var i := GroupOf(io, q, c, filtered, s, gs, first);
    var last :| last in filtered && EndTS(io, last) == hi;
    var j := GroupOf(io, q, c, filtered, s, gs, last);
    assert gs[i].startTs == lo && gs[j].endTs == hi;
  }

  // ---- sums ----

  function MemberSum(f: Field): GroupView -> nat {
    (g: GroupView) => Sum(Vals(g.members, f))
  }

  lemma {:induction false} SumOfVals(members: seq<Record>, f: Field)
    ensures Sum(Vals(members, f)) == SumBy(members, (r: Record) => Val(r, f))
  {
    if members != [] {
      var n := |members| - 1;
      SumOfVals(members[..n], f);
      assert Vals(members, f)[..n] == Vals(members[..n], f);
    }
  }

  lemma {:induction false} SumsOfGroups(gs: seq<GroupView>, f: Field)
    ensures SumBy(Flatten(MembersOf(gs)), (r: Record) => Val(r, f)) == SumBy(gs, MemberSum(f))
  {
    if gs != [] {
      var n := |gs| - 1;
      SumsOfGroups(gs[..n], f);
      assert MembersOf(gs)[..n] == MembersOf(gs[..n]);
      SumByAppend(Flatten(MembersOf(gs[..n])), gs[n].members, (r: Record) => Val(r, f));
      SumOfVals(gs[n].members, f);
    }
  }

  /** Within one clause the groups' sums of a field add up to the sum over all
      filtered records, and so do the 64-bit values kept for them, modulo 2^64. */
  lemma SumsConserved(io: Io, q: BranchQuery, c: GrouperClause, filtered: seq<Record>,
                      s: seq<Record>, gs: seq<GroupView>, f: Field)
    requires ClauseGroups(io, q, c, filtered, s, gs)
    ensures SumBy(gs, MemberSum(f)) == Sum(Vals(filtered, f))
    ensures SumBy(gs, (g: GroupView) => Sum(Vals(g.members, f)) % TWO_64) % TWO_64
            == Sum(Vals(filtered, f)) % TWO_64
  {
    SumOfVals(filtered, f);
    SumsOfGroups(gs, f);
    SumByPermutation(s, filtered, (r: Record) => Val(r, f));
    SumOfMods(gs, f);
  }

  lemma {:induction false} SumOfMods(gs: seq<GroupView>, f: Field)
    ensures SumBy(gs, (g: GroupView) => Sum(Vals(g.members, f)) % TWO_64) % TWO_64
            == SumBy(gs, MemberSum(f)) % TWO_64
  {
    if gs != [] {
      var n := |gs| - 1;
      SumOfMods(gs[..n], f);
      AddMods(SumBy(gs[..n], (g: GroupView) => Sum(Vals(g.members, f)) % TWO_64),
              SumBy(gs[..n], MemberSum(f)), Sum(Vals(gs[n].members, f)));
    }
  }

  lemma AddMods(x: nat, y: nat, v: nat)
    requires x % TWO_64 == y % TWO_64
    ensures (x + v % TWO_64) % TWO_64 == (y + v) % TWO_64
  {
    var r := (x + v % TWO_64) % TWO_64;
    var q := (x + v % TWO_64) / TWO_64;
    assert y + v == TWO_64 * (q - x / TWO_64 + y / TWO_64 + v / TWO_64) + r;
    ModUnique(y + v, TWO_64, q - x / TWO_64 + y / TWO_64 + v / TWO_64, r);
  }
}
