/** Grouping by one `EQ` term with a delta: a relative term links neighbours
    into chains, an absolute term covers the values with intervals. */
module DeltaGroups {
  import opened Bytes
  import opened KeyGroups
  import opened Lex
  import opened Query
  import opened Runs
  import opened Seqs
  import opened Sorting

  /** The clause with the single term `f == f` of the given type and delta. */
  function DeltaClause(f: Field, delta: u64, optype: OpType): GrouperClause {
    [GrouperTerm(f, f, delta, EQ, optype)]
  }

  /** The comparator's verdict on a held value x and a next value y >= x. The
      intended part is the first; the second is what `uint64_t` adds. */
  predicate Near(x: u64, y: u64, delta: u64) { y - x <= delta }

  predicate Tolerated(x: u64, y: u64, delta: u64) {
    delta <= y && (y + delta < TWO_64 || x + TWO_64 <= y + delta)
  }

  lemma DeltaVerdict(x: u64, y: u64, delta: u64)
    requires x <= y
    ensures Compare(EQ, x, y, delta) <==> Near(x, y, delta) && Tolerated(x, y, delta)
  {
  }

  ghost predicate Ascending(f: Field, s: seq<Record>) {
    forall i, j :: 0 <= i < j < |s| ==> Val(s[i], f) <= Val(s[j], f)
  }

  lemma SortedIsAscending(f: Field, delta: u64, optype: OpType, s: seq<Record>)
    ensures SortedBy(DeltaClause(f, delta, optype), s) <==> Ascending(f, s)
  {
    var c := DeltaClause(f, delta, optype);
    forall i, j | 0 <= i < j < |s|
      ensures NotAbove(c, s[i], s[j]) <==> Val(s[i], f) <= Val(s[j], f)
    {
      LexUnfold(Key(c, s[j]), Key(c, s[i]));
      assert !LexBelow(Key(c, s[j])[1..], Key(c, s[i])[1..]);
    }
  }

  /** The same test without wrap-around: distance to the last member (relative)
      or to the first (absolute). */
  function IdealTest(f: Field, delta: u64, optype: OpType): (seq<Record>, Record) -> bool {
    (members: seq<Record>, r: Record) =>
      members != [] && Near(Val(Held(members, optype), f), Val(r, f), delta)
  }

  function Held(members: seq<Record>, optype: OpType): Record
    requires members != []
  {
    members[if optype.REL? then |members| - 1 else 0]
  }

  predicate DeltaType(optype: OpType) { optype.REL? || optype.ABS? }

  lemma TestVerdict(f: Field, delta: u64, optype: OpType, members: seq<Record>, r: Record)
    requires DeltaType(optype) && members != [] && Val(Held(members, optype), f) <= Val(r, f)
    ensures JoinTest(DeltaClause(f, delta, optype))(members, r) <==>
      IdealTest(f, delta, optype)(members, r) && Tolerated(Val(Held(members, optype), f), Val(r, f), delta)
  {
    var c := DeltaClause(f, delta, optype);
    DeltaVerdict(Val(Held(members, optype), f), Val(r, f), delta);
    assert ClauseJoins(c, members, r) <==> TermJoins(c[0], members, r);
  }

  /** Inside the intended groups no accepted pair trips over the wrap-around. */
  ghost predicate NoTrip(f: Field, delta: u64, optype: OpType, hs: seq<seq<Record>>) {
    forall i, k :: 0 <= i < |hs| && 1 <= k < |hs[i]| ==>
      Tolerated(Val(Held(hs[i][..k], optype), f), Val(hs[i][k], f), delta)
  }

  lemma HeldBelow(f: Field, optype: OpType, s: seq<Record>, gs: seq<seq<Record>>, i: nat, k: nat)
    requires Ascending(f, s) && Flatten(gs) == s && i < |gs| && 1 <= k <= |gs[i]|
    ensures k < |gs[i]| ==> Val(Held(gs[i][..k], optype), f) <= Val(gs[i][k], f)
    ensures k == |gs[i]| && i + 1 < |gs| && gs[i + 1] != [] ==>
      Val(Held(gs[i], optype), f) <= Val(gs[i + 1][0], f)
  {
    var h := if optype.REL? then k - 1 else 0;
    if k < |gs[i]| {
      var p, q := MembersInOrder(gs, i, h, i, k);
    } else if i + 1 < |gs| && gs[i + 1] != [] {
      var p, q := MembersInOrder(gs, i, h, i + 1, 0);
    }
  }

  /** The engine's groups are the intended ones exactly when no pair inside an
      intended group trips over the wrap-around. */
  lemma GroupsAreIntended(f: Field, delta: u64, optype: OpType, s: seq<Record>,
                          gs: seq<seq<Record>>, hs: seq<seq<Record>>)
    requires DeltaType(optype) && Ascending(f, s)
    requires RunsOf(JoinTest(DeltaClause(f, delta, optype)), s, gs)
    requires RunsOf(IdealTest(f, delta, optype), s, hs)
    ensures gs == hs <==> NoTrip(f, delta, optype, hs)
  {
    var code, ideal := JoinTest(DeltaClause(f, delta, optype)), IdealTest(f, delta, optype);
    if NoTrip(f, delta, optype, hs) {
      forall i | 0 <= i < |hs|
        ensures Grown(code, hs[i])
      {
        assert Grown(ideal, hs[i]);
        forall k | 1 <= k < |hs[i]|
          ensures code(hs[i][..k], hs[i][k])
        {
          HeldBelow(f, optype, s, hs, i, k);
          TestVerdict(f, delta, optype, hs[i][..k], hs[i][k]);
        }
      }
      forall i | 0 < i < |hs|
        ensures !code(hs[i - 1], hs[i][0])
      {
        assert Grown(ideal, hs[i - 1]) && Grown(ideal, hs[i]);
        HeldBelow(f, optype, s, hs, i - 1, |hs[i - 1]|);
        TestVerdict(f, delta, optype, hs[i - 1], hs[i][0]);
      }
      RunsUnique(code, s, gs, hs);
    }
    if gs == hs {
      forall i, k | 0 <= i < |hs| && 1 <= k < |hs[i]|
        ensures Tolerated(Val(Held(hs[i][..k], optype), f), Val(hs[i][k], f), delta)
      {
        assert Grown(code, gs[i]);
        HeldBelow(f, optype, s, hs, i, k);
        TestVerdict(f, delta, optype, hs[i][..k], hs[i][k]);
      }
    }
  }

  // ---- relative: single linkage ----

  /** A chain of values of `s`, each at most delta from the one before. */
  ghost predicate Chain(f: Field, delta: u64, s: seq<Record>, path: seq<nat>) {
    && path != []
    && (forall k :: 0 <= k < |path| ==> path[k] < |s|)
    && (forall k :: 0 < k < |path| ==> Close(f, delta, s, path[k - 1], path[k]))
  }

  ghost predicate Close(f: Field, delta: u64, s: seq<Record>, p: nat, q: nat)
    requires p < |s| && q < |s|
  {
    Near(Val(s[p], f), Val(s[q], f), delta) && Near(Val(s[q], f), Val(s[p], f), delta)
  }

  ghost predicate Linked(f: Field, delta: u64, s: seq<Record>, p: nat, q: nat) {
    exists path :: Chain(f, delta, s, path) && path[0] == p && path[|path| - 1] == q
  }

  /** A gap wider than delta stops every chain. */
  lemma {:induction false} GapStopsChain(f: Field, delta: u64, s: seq<Record>, cut: nat, path: seq<nat>)
    requires Ascending(f, s) && 0 < cut < |s| && Chain(f, delta, s, path)
    requires !Near(Val(s[cut - 1], f), Val(s[cut], f), delta)
    ensures path[0] < cut <==> path[|path| - 1] < cut
  {
    var n := |path| - 1;
    if n > 0 {
      GapStopsChain(f, delta, s, cut, path[..n]);
      var x, y := path[n - 1], path[n];
      assert Close(f, delta, s, path[n - 1], path[n]);
      assert x < cut ==> Val(s[x], f) <= Val(s[cut - 1], f);
      assert y < cut ==> Val(s[y], f) <= Val(s[cut - 1], f);
      assert x >= cut ==> Val(s[cut], f) <= Val(s[x], f);
      assert y >= cut ==> Val(s[cut], f) <= Val(s[y], f);
    }
  }

  lemma RelNeighboursNear(f: Field, delta: u64, s: seq<Record>, hs: seq<seq<Record>>, i: nat, k: nat)
    requires RunsOf(IdealTest(f, delta, REL), s, hs) && i < |hs| && 1 <= k < |hs[i]|
    ensures Near(Val(hs[i][k - 1], f), Val(hs[i][k], f), delta)
  {
    assert Grown(IdealTest(f, delta, REL), hs[i]);
    assert IdealTest(f, delta, REL)(hs[i][..k], hs[i][k]);
    assert Held(hs[i][..k], REL) == hs[i][k - 1];
  }

  lemma NeighboursClose(f: Field, delta: u64, s: seq<Record>, hs: seq<seq<Record>>, i: nat, k: nat)
    requires Ascending(f, s) && RunsOf(IdealTest(f, delta, REL), s, hs) && i < |hs| && 1 <= k < |hs[i]|
    ensures Offset(hs, i) + k < |s|
    ensures Close(f, delta, s, Offset(hs, i) + k - 1, Offset(hs, i) + k)
    ensures Close(f, delta, s, Offset(hs, i) + k, Offset(hs, i) + k - 1)
  {
    hide Val;
    MemberPosition(hs, i, k);
    MemberPosition(hs, i, k - 1);
    RelNeighboursNear(f, delta, s, hs, i, k);
  }

  /** The stretch between two members of one group is a chain, both ways. */
  lemma {:induction false} StretchIsChain(f: Field, delta: u64, s: seq<Record>, hs: seq<seq<Record>>,
                                          i: nat, a: nat, b: nat)
    returns (up: seq<nat>, down: seq<nat>)
    requires Ascending(f, s) && RunsOf(IdealTest(f, delta, REL), s, hs)
    requires i < |hs| && a <= b < |hs[i]|
    ensures Chain(f, delta, s, up) && Chain(f, delta, s, down)
    ensures up[0] == down[|down| - 1] == Offset(hs, i) + a
    ensures up[|up| - 1] == down[0] == Offset(hs, i) + b
    decreases b
  {
    hide Val;
    var o := Offset(hs, i);
    MemberPosition(hs, i, b);
    if a == b {
      up, down := [o + a], [o + a];
    } else {
      up, down := StretchIsChain(f, delta, s, hs, i, a, b - 1);
      NeighboursClose(f, delta, s, hs, i, b);
      up, down := up + [o + b], [o + b] + down;
    }
  }

  lemma SameGroupLinked(f: Field, delta: u64, s: seq<Record>, hs: seq<seq<Record>>, i: nat, a: nat, b: nat)
    requires Ascending(f, s) && RunsOf(IdealTest(f, delta, REL), s, hs)
    requires i < |hs| && a < |hs[i]| && b < |hs[i]|
    ensures Linked(f, delta, s, Offset(hs, i) + a, Offset(hs, i) + b)
  {
    hide Val, RunsOf;
    var up, down := StretchIsChain(f, delta, s, hs, i, if a <= b then a else b, if a <= b then b else a);
    var path := if a <= b then up else down;
    assert path[0] == Offset(hs, i) + a && path[|path| - 1] == Offset(hs, i) + b;
  }

  lemma OtherGroupNotLinked(f: Field, delta: u64, s: seq<Record>, hs: seq<seq<Record>>,
                            i: nat, p: nat, j: nat, q: nat)
    requires Ascending(f, s) && RunsOf(IdealTest(f, delta, REL), s, hs)
    requires i < |hs| && j < |hs| && i != j && InRun(hs, i, p) && InRun(hs, j, q)
    ensures !Linked(f, delta, s, p, q)
  {
    hide Val, RunsOf;
    if Linked(f, delta, s, p, q) {
      var path :| Chain(f, delta, s, path) && path[0] == p && path[|path| - 1] == q;
      var lo, hi := if i < j then i else j, if i < j then j else i;
      var cut := GroupBoundary(f, delta, s, hs, lo);
      OffsetsGrow(hs, lo + 1, hi);
      GapStopsChain(f, delta, s, cut, path);
    }
  }

  /** The relative grouping is single linkage: two records share a group exactly
      when a chain of records joins them, although the scan only ever compares
      neighbours of the sorted array. */
  lemma GroupsAreLinkageComponents(f: Field, delta: u64, s: seq<Record>, hs: seq<seq<Record>>, p: nat, q: nat)
    requires Ascending(f, s) && RunsOf(IdealTest(f, delta, REL), s, hs) && p < |s| && q < |s|
    ensures SameRun(hs, p, q) <==> Linked(f, delta, s, p, q)
  {
    hide Val, Linked, InRun;
    var i, a := RunAt(hs, p);
    var j, b := RunAt(hs, q);
    if i == j {
      SameGroupLinked(f, delta, s, hs, i, a, b);
    } else {
      OtherGroupNotLinked(f, delta, s, hs, i, p, j, q);
      if SameRun(hs, p, q) {
        var k :| 0 <= k < |hs| && InRun(hs, k, p) && InRun(hs, k, q);
        OneRunEach(hs, i, k, p);
        OneRunEach(hs, j, k, q);
      }
    }
  }

  lemma GroupBoundary(f: Field, delta: u64, s: seq<Record>, hs: seq<seq<Record>>, i: nat) returns (cut: nat)
    requires Ascending(f, s) && RunsOf(IdealTest(f, delta, REL), s, hs) && i + 1 < |hs|
    ensures cut == Offset(hs, i + 1) && 0 < cut < |s|
    ensures !Near(Val(s[cut - 1], f), Val(s[cut], f), delta)
  {
    hide Val;
    assert Grown(IdealTest(f, delta, REL), hs[i]) && Grown(IdealTest(f, delta, REL), hs[i + 1]);
    MemberPosition(hs, i, |hs[i]| - 1);
    MemberPosition(hs, i + 1, 0);
    cut := Offset(hs, i + 1);
    assert !IdealTest(f, delta, REL)(hs[i + 1 - 1], hs[i + 1][0]);
  }

  // ---- absolute: fewest covering intervals ----

  /** Closed intervals of length delta, given by their left ends, such that
      every value lies in one. */
  ghost predicate Covers(f: Field, delta: u64, s: seq<Record>, lefts: seq<real>) {
    forall p :: 0 <= p < |s| ==> Covered(Val(s[p], f), delta, lefts)
  }

  ghost predicate Covered(x: u64, delta: u64, lefts: seq<real>) {
    exists k :: 0 <= k < |lefts| && InInterval(x, lefts[k], delta)
  }

  predicate InInterval(x: u64, left: real, delta: u64) {
    left <= x as real <= left + delta as real
  }

  lemma IdealRunsNonEmpty(f: Field, delta: u64, optype: OpType, hs: seq<seq<Record>>)
    requires AllGrown(IdealTest(f, delta, optype), hs)
    ensures forall i :: 0 <= i < |hs| ==> hs[i] != []
  {
    forall i | 0 <= i < |hs|
      ensures hs[i] != []
    {
      assert Grown(IdealTest(f, delta, optype), hs[i]);
    }
  }

  /** Every member is within delta above its anchor, and anchors lie more than
      delta apart. */
  lemma AnchorsApart(f: Field, delta: u64, s: seq<Record>, hs: seq<seq<Record>>, i: nat, j: nat, b: nat)
    requires Ascending(f, s) && RunsOf(IdealTest(f, delta, ABS), s, hs)
    requires i <= j < |hs| && b < |hs[j]|
    ensures hs[i] != [] && Val(hs[i][0], f) <= Val(hs[j][b], f)
    ensures Near(Val(hs[i][0], f), Val(hs[j][b], f), delta) <==> i == j
  {
    IdealRunsNonEmpty(f, delta, ABS, hs);
    assert Grown(IdealTest(f, delta, ABS), hs[i]);
    if i == j {
      if b > 0 {
        var p, q := MembersInOrder(hs, i, 0, i, b);
        assert IdealTest(f, delta, ABS)(hs[i][..b], hs[i][b]);
        assert Held(hs[i][..b], ABS) == hs[i][0];
      }
    } else {
      assert !IdealTest(f, delta, ABS)(hs[i + 1 - 1], hs[i + 1][0]);
      assert Held(hs[i], ABS) == hs[i][0];
      assert !Near(Val(hs[i][0], f), Val(hs[i + 1][0], f), delta);
      if i + 1 < j || b > 0 {
        var p', q' := MembersInOrder(hs, i + 1, 0, j, b);
      }
    }
  }

  /** One interval per group, starting at the anchor, is a cover. */
  lemma GroupsCover(f: Field, delta: u64, s: seq<Record>, hs: seq<seq<Record>>) returns (lefts: seq<real>)
    requires Ascending(f, s) && RunsOf(IdealTest(f, delta, ABS), s, hs)
    ensures |lefts| == |hs| && Covers(f, delta, s, lefts)
  {
    IdealRunsNonEmpty(f, delta, ABS, hs);
    lefts := seq(|hs|, i requires 0 <= i < |hs| => Val(hs[i][0], f) as real);
    forall p | 0 <= p < |s|
      ensures Covered(Val(s[p], f), delta, lefts)
    {
      assert s[p] in s;
      var i, a := WhereIs(hs, s[p]);
      AnchorsApart(f, delta, s, hs, i, i, a);
      assert InInterval(Val(s[p], f), lefts[i], delta);
    }
  }

  /** No cover has fewer intervals than there are groups: an interval of length
      delta cannot hold two anchors. */
  lemma NoSmallerCover(f: Field, delta: u64, s: seq<Record>, hs: seq<seq<Record>>, lefts: seq<real>)
    requires Ascending(f, s) && RunsOf(IdealTest(f, delta, ABS), s, hs)
    requires Covers(f, delta, s, lefts)
    ensures |hs| <= |lefts|
  {
    hide Val;
    var used: set<nat> := {};
    for i := 0 to |hs|
      invariant |used| == i
      invariant forall k :: k in used ==>
        k < |lefts| && exists m :: 0 <= m < i && hs[m] != [] && InInterval(Val(hs[m][0], f), lefts[k], delta)
    {
      AnchorsApartAt(f, delta, s, hs, i);
      MemberPosition(hs, i, 0);
      var p := Offset(hs, i);
      assert s[p] == hs[i][0];
      assert Covered(Val(s[p], f), delta, lefts);
      var k :| 0 <= k < |lefts| && InInterval(Val(s[p], f), lefts[k], delta);
      if k in used {
        var m :| 0 <= m < i && hs[m] != [] && InInterval(Val(hs[m][0], f), lefts[k], delta);
        AnchorsApart(f, delta, s, hs, m, i, 0);
        assert false;
      }
      used := used + {k};
    }
    SmallNumbers(used, |lefts|);
  }

  lemma AnchorsApartAt(f: Field, delta: u64, s: seq<Record>, hs: seq<seq<Record>>, i: nat)
    requires RunsOf(IdealTest(f, delta, ABS), s, hs) && i < |hs|
    ensures hs[i] != []
  {
    assert Grown(IdealTest(f, delta, ABS), hs[i]);
  }

  lemma {:induction false} SmallNumbers(used: set<nat>, n: nat)
    requires forall k :: k in used ==> k < n
    ensures |used| <= n
  {
    if n == 0 {
      assert used == {};
    } else {
      SmallNumbers(used - {n - 1}, n - 1);
    }
  }

  // ---- the engine's own groups ----

  /** No two neighbours of the sorted array are within delta of each other and
      yet trip over the wrap-around. */
  ghost predicate NeighboursTolerated(f: Field, delta: u64, s: seq<Record>) {
    forall p :: 0 < p < |s| && Near(Val(s[p - 1], f), Val(s[p], f), delta) ==>
      Tolerated(Val(s[p - 1], f), Val(s[p], f), delta)
  }

  ghost predicate SameGroupIffLinked(f: Field, delta: u64, s: seq<Record>, gs: seq<seq<Record>>) {
    forall p, q :: 0 <= p < |s| && 0 <= q < |s| ==> (SameRun(gs, p, q) <==> Linked(f, delta, s, p, q))
  }

  /** A relative delta term groups by single linkage exactly when all close
      neighbours of the sorted array are tolerated. */
  lemma RelativeGroupsAreComponents(f: Field, delta: u64, s: seq<Record>, gs: seq<seq<Record>>)
    requires SortedBy(DeltaClause(f, delta, REL), s)
    requires RunsOf(JoinTest(DeltaClause(f, delta, REL)), s, gs)
    ensures SameGroupIffLinked(f, delta, s, gs) <==> NeighboursTolerated(f, delta, s)
  {
    hide Val;
    SortedIsAscending(f, delta, REL, s);
    if NeighboursTolerated(f, delta, s) {
      var hs := RunsExist(IdealTest(f, delta, REL), s);
      ToleratedNeighboursNeverTrip(f, delta, s, hs);
      GroupsAreIntended(f, delta, REL, s, gs, hs);
      forall p, q | 0 <= p < |s| && 0 <= q < |s|
        ensures SameRun(gs, p, q) <==> Linked(f, delta, s, p, q)
      {
        GroupsAreLinkageComponents(f, delta, s, hs, p, q);
      }
    } else {
      var p :| 0 < p < |s| && Near(Val(s[p - 1], f), Val(s[p], f), delta)
        && !Tolerated(Val(s[p - 1], f), Val(s[p], f), delta);
      UntoleratedSplit(f, delta, s, gs, p);
    }
  }

  /** Close neighbours that trip are linked, but not grouped together. */
  lemma UntoleratedSplit(f: Field, delta: u64, s: seq<Record>, gs: seq<seq<Record>>, p: nat)
    requires Ascending(f, s) && RunsOf(JoinTest(DeltaClause(f, delta, REL)), s, gs) && 0 < p < |s|
    requires Near(Val(s[p - 1], f), Val(s[p], f), delta) && !Tolerated(Val(s[p - 1], f), Val(s[p], f), delta)
    ensures Linked(f, delta, s, p - 1, p) && !SameRun(gs, p - 1, p)
  {
    hide Val, Tolerated, Offset, AllGrown;
    CloseNeighboursLinked(f, delta, s, p);
    if SameRun(gs, p - 1, p) {
      var k :| 0 <= k < |gs| && InRun(gs, k, p - 1) && InRun(gs, k, p);
      var i, a := RunAt(gs, p);
      OneRunEach(gs, i, k, p);
      CodeNeighbours(f, delta, s, gs, i, a);
      var q := AdjacentInRun(gs, i, a);
    }
  }

  lemma CloseNeighboursLinked(f: Field, delta: u64, s: seq<Record>, p: nat)
    requires Ascending(f, s) && 0 < p < |s| && Near(Val(s[p - 1], f), Val(s[p], f), delta)
    ensures Linked(f, delta, s, p - 1, p)
  {
    hide Val;
    var path := [p - 1, p];
    assert Close(f, delta, s, p - 1, p);
    assert Chain(f, delta, s, path) && path[0] == p - 1 && path[|path| - 1] == p;
  }

  lemma ToleratedNeighboursNeverTrip(f: Field, delta: u64, s: seq<Record>, hs: seq<seq<Record>>)
    requires Ascending(f, s) && RunsOf(IdealTest(f, delta, REL), s, hs) && NeighboursTolerated(f, delta, s)
    ensures NoTrip(f, delta, REL, hs)
  {
    hide Val;
    forall i, k | 0 <= i < |hs| && 1 <= k < |hs[i]|
      ensures Tolerated(Val(Held(hs[i][..k], REL), f), Val(hs[i][k], f), delta)
    {
      RelNeighboursNear(f, delta, s, hs, i, k);
      var p := AdjacentInRun(hs, i, k);
      assert Held(hs[i][..k], REL) == hs[i][k - 1];
    }
  }

  lemma CodeNeighbours(f: Field, delta: u64, s: seq<Record>, gs: seq<seq<Record>>, i: nat, k: nat)
    requires Ascending(f, s) && RunsOf(JoinTest(DeltaClause(f, delta, REL)), s, gs)
    requires i < |gs| && 1 <= k < |gs[i]|
    ensures Tolerated(Val(gs[i][k - 1], f), Val(gs[i][k], f), delta)
  {
    hide Val;
    var c := DeltaClause(f, delta, REL);
    assert Grown(JoinTest(c), gs[i]);
    assert JoinTest(c)(gs[i][..k], gs[i][k]);
    HeldBelow(f, REL, s, gs, i, k);
    TestVerdict(f, delta, REL, gs[i][..k], gs[i][k]);
    assert Held(gs[i][..k], REL) == gs[i][k - 1];
  }

  /** A member is within delta of its own anchor and of no earlier one. */
  ghost predicate AnchorsTell(f: Field, delta: u64, gs: seq<seq<Record>>, i: nat, j: nat, b: nat)
    requires i < |gs| && j < |gs| && b < |gs[j]|
  {
    gs[i] != [] && (Near(Val(gs[i][0], f), Val(gs[j][b], f), delta) <==> i == j)
  }

  ghost predicate AllAnchorsTell(f: Field, delta: u64, gs: seq<seq<Record>>) {
    forall i, j, b :: 0 <= i <= j < |gs| && 0 <= b < |gs[j]| ==> AnchorsTell(f, delta, gs, i, j, b)
  }

  /** As many intervals of length delta cover the values, and no fewer. */
  ghost predicate Fewest(f: Field, delta: u64, s: seq<Record>, gs: seq<seq<Record>>) {
    && (exists lefts :: |lefts| == |gs| && Covers(f, delta, s, lefts))
    && (forall lefts :: Covers(f, delta, s, lefts) ==> |gs| <= |lefts|)
  }

  /** `gs` is what the engine makes of the sorted array `s`. */
  ghost predicate AbsoluteGroups(f: Field, delta: u64, s: seq<Record>, gs: seq<seq<Record>>) {
    SortedBy(DeltaClause(f, delta, ABS), s) && RunsOf(JoinTest(DeltaClause(f, delta, ABS)), s, gs)
  }

  /** Each member is within delta of its own anchor only, exactly when no pair
      inside an intended group trips; then the groups are also the fewest that
      intervals of length delta allow. */
  lemma AnchorsTellIffNoTrip(f: Field, delta: u64, s: seq<Record>, gs: seq<seq<Record>>, hs: seq<seq<Record>>)
    requires AbsoluteGroups(f, delta, s, gs) && RunsOf(IdealTest(f, delta, ABS), s, hs)
    ensures AllAnchorsTell(f, delta, gs) <==> NoTrip(f, delta, ABS, hs)
    ensures NoTrip(f, delta, ABS, hs) ==> Fewest(f, delta, s, gs)
  {
    hide Val;
    SortedIsAscending(f, delta, ABS, s);
    GroupsAreIntended(f, delta, ABS, s, gs, hs);
    if NoTrip(f, delta, ABS, hs) {
      forall i, j, b | 0 <= i <= j < |gs| && 0 <= b < |gs[j]|
        ensures AnchorsTell(f, delta, gs, i, j, b)
      {
        AnchorsApart(f, delta, s, hs, i, j, b);
      }
      var lefts := GroupsCover(f, delta, s, hs);
      forall ls | Covers(f, delta, s, ls)
        ensures |gs| <= |ls|
      {
        NoSmallerCover(f, delta, s, hs, ls);
      }
    } else if AllAnchorsTell(f, delta, gs) {
      TellingIsIntended(f, delta, s, gs);
      RunsUnique(IdealTest(f, delta, ABS), s, gs, hs);
    }
  }

  lemma TellingIsIntended(f: Field, delta: u64, s: seq<Record>, gs: seq<seq<Record>>)
    requires RunsOf(JoinTest(DeltaClause(f, delta, ABS)), s, gs) && AllAnchorsTell(f, delta, gs)
    ensures RunsOf(IdealTest(f, delta, ABS), s, gs)
  {
    hide Val;
    var code, ideal := JoinTest(DeltaClause(f, delta, ABS)), IdealTest(f, delta, ABS);
    forall i | 0 <= i < |gs|
      ensures Grown(ideal, gs[i])
    {
      assert Grown(code, gs[i]);
      forall k | 1 <= k < |gs[i]|
        ensures ideal(gs[i][..k], gs[i][k])
      {
        assert AnchorsTell(f, delta, gs, i, i, k);
        assert Held(gs[i][..k], ABS) == gs[i][0];
      }
    }
    forall i | 0 < i < |gs|
      ensures !ideal(gs[i - 1], gs[i][0])
    {
      assert Grown(ideal, gs[i]);
      assert AnchorsTell(f, delta, gs, i - 1, i, 0);
      assert Held(gs[i - 1], ABS) == gs[i - 1][0];
    }
  }

  /** Two records with near values do not trip over the wrap-around. */
  predicate PairTolerated(f: Field, delta: u64, r1: Record, r2: Record) {
    Val(r1, f) <= Val(r2, f) && Near(Val(r1, f), Val(r2, f), delta) ==>
      Tolerated(Val(r1, f), Val(r2, f), delta)
  }

  ghost predicate AllPairsTolerated(f: Field, delta: u64, pool: set<Record>) {
    forall r1, r2 :: r1 in pool && r2 in pool && r1 != r2 ==> PairTolerated(f, delta, r1, r2)
  }

  lemma ToleratedPairsNeverTrip(f: Field, delta: u64, pool: set<Record>, s: seq<Record>, hs: seq<seq<Record>>)
    requires AllPairsTolerated(f, delta, pool) && NoRepeats(s) && DrawnFrom(s, pool)
    requires Ascending(f, s) && RunsOf(IdealTest(f, delta, ABS), s, hs)
    ensures NoTrip(f, delta, ABS, hs)
  {
    hide Val, Tolerated, Near;
    forall i, k | 0 <= i < |hs| && 1 <= k < |hs[i]|
      ensures Tolerated(Val(Held(hs[i][..k], ABS), f), Val(hs[i][k], f), delta)
    {
      var p, q := MembersInOrder(hs, i, 0, i, k);
      assert s[p] in s && s[q] in s && s[p] != s[q];
      assert Held(hs[i][..k], ABS) == hs[i][0];
      AnchorsApart(f, delta, s, hs, i, i, k);
      assert PairTolerated(f, delta, s[p], s[q]);
    }
  }

  /** Two records with near values belong together; the engine keeps them
      together exactly when the second value is tolerated after the first. */
  lemma NearPair(f: Field, delta: u64, optype: OpType, r1: Record, r2: Record)
    requires DeltaType(optype) && Val(r1, f) <= Val(r2, f) && Near(Val(r1, f), Val(r2, f), delta)
    ensures RunsOf(IdealTest(f, delta, optype), [r1, r2], [[r1, r2]])
    ensures RunsOf(JoinTest(DeltaClause(f, delta, optype)), [r1, r2], [[r1], [r2]]) <==>
      !Tolerated(Val(r1, f), Val(r2, f), delta)
  {
    hide Val, Tolerated, Near;
    var code, ideal := JoinTest(DeltaClause(f, delta, optype)), IdealTest(f, delta, optype);
    assert Held([r1], optype) == r1;
    TestVerdict(f, delta, optype, [r1], r2);
    FlattenSnoc([], [r1, r2]);
    assert [] + [[r1, r2]] == [[r1, r2]];
    assert [r1, r2][..1] == [r1];
    assert Grown(ideal, [r1, r2]);
    FlattenSnoc([], [r1]);
    assert [] + [[r1]] == [[r1]];
    FlattenSnoc([[r1]], [r2]);
    assert [[r1]] + [[r2]] == [[r1], [r2]];
    assert Grown(code, [r1]) && Grown(code, [r2]);
    var split := [[r1], [r2]];
    assert AllClosed(code, split) <==> !code(split[1 - 1], split[1][0]);
  }

  /** In particular two records with one value are split exactly when the value
      is closer than delta to an end of the range. */
  lemma EqualValues(f: Field, delta: u64, optype: OpType, r1: Record, r2: Record)
    requires DeltaType(optype) && Val(r1, f) == Val(r2, f)
    ensures RunsOf(IdealTest(f, delta, optype), [r1, r2], [[r1, r2]])
    ensures RunsOf(JoinTest(DeltaClause(f, delta, optype)), [r1, r2], [[r1], [r2]]) <==>
      Val(r1, f) < delta || TWO_64 <= Val(r1, f) + delta
  {
    hide Val;
    NearPair(f, delta, optype, r1, r2);
  }

  /** A value of 3 with a delta of 5: 3 - 5 wraps around, and the engine splits
      two equal records. */
  lemma EqualValuesSplit(f: Field, optype: OpType, r1: Record, r2: Record)
    requires DeltaType(optype) && Val(r1, f) == Val(r2, f) == 3
    ensures RunsOf(IdealTest(f, 5, optype), [r1, r2], [[r1, r2]])
    ensures RunsOf(JoinTest(DeltaClause(f, 5, optype)), [r1, r2], [[r1], [r2]])
  {
    EqualValues(f, 5, optype, r1, r2);
  }

  ghost predicate DrawnFrom(s: seq<Record>, pool: set<Record>) {
    forall r :: r in s ==> r in pool
  }

  /** An absolute delta term gives the fewest groups for whatever different
      records are drawn from a pool exactly when no two of them with values at
      most delta apart trip over the wrap-around. */
  lemma AbsoluteGroupsAreFewest(f: Field, delta: u64, pool: set<Record>)
    ensures (forall s: seq<Record>, gs :: NoRepeats(s) && DrawnFrom(s, pool) ==>
               AbsoluteGroups(f, delta, s, gs) ==> Fewest(f, delta, s, gs))
            <==> AllPairsTolerated(f, delta, pool)
  {
    hide Fewest, PairTolerated, AbsoluteGroups;
    if AllPairsTolerated(f, delta, pool) {
      forall s: seq<Record>, gs | NoRepeats(s) && DrawnFrom(s, pool) && AbsoluteGroups(f, delta, s, gs)
        ensures Fewest(f, delta, s, gs)
      {
        var hs := RunsExist(IdealTest(f, delta, ABS), s);
        GroupedAscending(f, delta, s, gs);
        ToleratedPairsNeverTrip(f, delta, pool, s, hs);
        AnchorsTellIffNoTrip(f, delta, s, gs, hs);
      }
    } else {
      var r1, r2 :| r1 in pool && r2 in pool && r1 != r2 && !PairTolerated(f, delta, r1, r2);
      TrippingPair(f, delta, r1, r2);
      assert DrawnFrom([r1, r2], pool) && NoRepeats([r1, r2]);
    }
  }

  lemma GroupedAscending(f: Field, delta: u64, s: seq<Record>, gs: seq<seq<Record>>)
    requires AbsoluteGroups(f, delta, s, gs)
    ensures Ascending(f, s)
  {
    SortedIsAscending(f, delta, ABS, s);
  }

  lemma TrippingPair(f: Field, delta: u64, r1: Record, r2: Record)
    requires !PairTolerated(f, delta, r1, r2)
    ensures AbsoluteGroups(f, delta, [r1, r2], [[r1], [r2]]) && !Fewest(f, delta, [r1, r2], [[r1], [r2]])
  {
    hide Val, RunsOf, SortedBy, Tolerated;
    var s := [r1, r2];
    NearPair(f, delta, ABS, r1, r2);
    SortedIsAscending(f, delta, ABS, s);
    var lefts := [Val(r1, f) as real];
    assert InInterval(Val(r1, f), lefts[0], delta) && InInterval(Val(r2, f), lefts[0], delta);
    assert Covers(f, delta, s, lefts);
  }
}
