/** src/merger.c: the join of the branches' filtered groups, driven by the
    permutation iterator. */
module Merger {
  import opened Bytes
  import opened Query
  import opened Odometer
  import opened Seqs

  type Groups = seq<GroupView>

  datatype MergerResult = MergerResult(groupTuples: seq<seq<GroupView>>, total: nat)

  function Counts(branches: seq<Groups>): (n: seq<nat>)
    ensures |n| == |branches|
  {
    seq(|branches|, j requires 0 <= j < |branches| => |branches[j]|)
  }

  /** The groups a tuple of one-based group numbers stands for. */
  function Picked(branches: seq<Groups>, ids: seq<nat>): (tuple: seq<GroupView>)
    requires InBox(ids, Counts(branches))
    ensures |tuple| == |branches|
    ensures forall j :: 0 <= j < |tuple| ==> tuple[j] in branches[j]
  {
    seq(|branches|, j requires 0 <= j < |branches| => branches[j][ids[j] - 1])
  }

  /** What nested loops over the branches would visit, in their order. */
  function AllTuples(branches: seq<Groups>): (ts: seq<seq<GroupView>>)
    ensures |ts| == Product(Counts(branches))
  {
    var n := Counts(branches);
    NestedLoopsByRank(n);
    seq(Product(n), k requires 0 <= k < Product(n) => Picked(branches, NestedLoops(n)[k]))
  }

  /** What the clause loop computes: its flag is lowered for good by the first
      clause that fails, so no later clause can rescue the tuple. */
  predicate Accepts(cs: seq<MergerClause>, tuple: seq<GroupView>) {
    WellBranched(cs, |tuple|) && (cs == [] || ClauseHolds(cs, 0, tuple))
  }

  /** What the query means: the clauses are alternatives. */
  predicate AcceptsDnf(cs: seq<MergerClause>, tuple: seq<GroupView>) {
    WellBranched(cs, |tuple|) && (cs == [] || exists k :: 0 <= k < |cs| && ClauseHolds(cs, k, tuple))
  }

  predicate ClauseHolds(cs: seq<MergerClause>, k: nat, tuple: seq<GroupView>)
    requires WellBranched(cs, |tuple|) && k < |cs|
  {
    forall j :: 0 <= j < |cs[k]| ==> TermMerges(cs[k][j], tuple)
  }

  function AcceptsTest(cs: seq<MergerClause>): seq<GroupView> -> bool {
    t => Accepts(cs, t)
  }

  function DnfTest(cs: seq<MergerClause>): seq<GroupView> -> bool {
    t => AcceptsDnf(cs, t)
  }

  /** The join by nested loops: every choice of one group per branch, tested. */
  function Join(branches: seq<Groups>, keep: seq<GroupView> -> bool): seq<seq<GroupView>> {
    Filter(AllTuples(branches), keep)
  }

  /** The term loop: stops at the first term that does not hold. */
  method TermsHold(cs: seq<MergerClause>, k: nat, branches: seq<Groups>, ids: seq<nat>) returns (holds: bool)
    requires InBox(ids, Counts(branches)) && WellBranched(cs, |branches|) && k < |cs|
    ensures holds <==> ClauseHolds(cs, k, Picked(branches, ids))
  {
    ghost var tuple := Picked(branches, ids);
    var j := 0;
    while j < |cs[k]|
      invariant 0 <= j <= |cs[k]|
      invariant forall i :: 0 <= i < j ==> TermMerges(cs[k][i], tuple)
    {
      var term := cs[k][j];
      var group1Id, group2Id := ids[term.branch1], ids[term.branch2];
      if !GroupsMerge(term, branches[term.branch1][group1Id - 1], branches[term.branch2][group2Id - 1]) {
        assert !TermMerges(cs[k][j], tuple);
        return false;
      }
      j := j + 1;
    }
    return true;
  }

  /** The clause loop. Its `clause` flag is raised once per tuple, not once per
      clause. */
  method EvalClauses(cs: seq<MergerClause>, branches: seq<Groups>, ids: seq<nat>) returns (clause: bool)
    requires InBox(ids, Counts(branches)) && WellBranched(cs, |branches|)
    ensures clause <==> Accepts(cs, Picked(branches, ids))
  {
    clause := true;
    ghost var tuple := Picked(branches, ids);
    var k := 0;
    while k < |cs|
      invariant 0 <= k <= |cs|
      invariant clause <==> k == 0
      invariant k > 0 ==> !ClauseHolds(cs, 0, tuple)
    {
      var holds := TermsHold(cs, k, branches, ids);
      if !holds {
        clause := false;
      }
      if clause {
        break;
      }
      k := k + 1;
    }
  }

  /** One round of the merger's loop, on the tuple of rank `steps`. */
  method TryTuple(cs: seq<MergerClause>, branches: seq<Groups>, ids: seq<nat>, ghost steps: nat,
                  kept: seq<seq<GroupView>>)
    returns (kept': seq<seq<GroupView>>)
    requires InBox(ids, Counts(branches)) && WellBranched(cs, |branches|)
    requires steps == Rank(ids, Counts(branches)) < |AllTuples(branches)|
    requires kept == Filter(AllTuples(branches)[..steps], AcceptsTest(cs))
    ensures kept' == Filter(AllTuples(branches)[..steps + 1], AcceptsTest(cs))
  {
    TupleAtRank(branches, ids);
    FilterStep(AllTuples(branches), AcceptsTest(cs), steps);
    var clause := EvalClauses(cs, branches, ids);
    kept' := if clause then kept + [Picked(branches, ids)] else kept;
  }

  /** The merger keeps, in nested-loop order, exactly the tuples its clause loop
      accepts; the 32-bit counter tells how many tuples were tried. */
  method Merge(cs: seq<MergerClause>, branches: seq<Groups>) returns (result: MergerResult)
    requires 1 <= |branches| && WellBranched(cs, |branches|)
    ensures result.groupTuples == Join(branches, AcceptsTest(cs))
    ensures result.total == Product(Counts(branches)) % TWO_32
    ensures [] in branches ==> result == MergerResult([], 0)
  {
    hide Filter, Accepts, NestedLoops, Product, Rank, AllTuples;
    var counts := Counts(branches);
    EmptyBranch(branches);
    var iter := IterInit(counts);
    if iter == null {
      return MergerResult([], 0);
    }
    var index, kept := 0, [];
    ghost var steps, laps := 0, 0;
    assert Product(counts) == |AllTuples(branches)|;
    var more := IterNext(iter);
    while more
      invariant iter.Valid() && fresh(iter.filteredGroupTuple) && iter.numFilteredGroups[..] == counts
      invariant 0 <= steps <= Product(counts) && (more <==> steps < Product(counts))
      invariant more ==> InBox(iter.filteredGroupTuple[..], counts) && iter.Position() == steps
      invariant steps == TWO_32 * laps + index && index < TWO_32
      invariant kept == Filter(AllTuples(branches)[..steps], AcceptsTest(cs))
      decreases Product(counts) - steps
    {
      index := if index + 1 == TWO_32 then 0 else index + 1;
      laps := if index == 0 then laps + 1 else laps;
      kept := TryTuple(cs, branches, iter.filteredGroupTuple[..], steps, kept);
      steps := steps + 1;
      more := IterNext(iter);
    }
    assert AllTuples(branches)[..steps] == AllTuples(branches);
    ModUnique(steps, TWO_32, laps, index);
    return MergerResult(kept, index);
  }

  lemma EmptyBranch(branches: seq<Groups>)
    ensures [] in branches <==> 0 in Counts(branches)
    ensures [] in branches ==> Product(Counts(branches)) == 0
  {
    var counts := Counts(branches);
    if [] in branches {
      var j :| 0 <= j < |branches| && branches[j] == [];
      assert counts[j] == 0;
      NoGroupNoTuple(counts);
    }
  }

  lemma {:induction false} NoGroupNoTuple(n: seq<nat>)
    requires 0 in n
    ensures Product(n) == 0
  {
    if n[0] != 0 {
      assert 0 in n[1..];
      NoGroupNoTuple(n[1..]);
    }
  }

  lemma TupleAtRank(branches: seq<Groups>, ids: seq<nat>)
    requires InBox(ids, Counts(branches))
    ensures 0 <= Rank(ids, Counts(branches)) < |AllTuples(branches)|
    ensures AllTuples(branches)[Rank(ids, Counts(branches))] == Picked(branches, ids)
  {
    NestedLoopsByRank(Counts(branches));
    NestedLoopsComplete(Counts(branches), ids);
  }

  // ---- meaning ----

  /** A choice of one group per branch is in the join iff the test accepts it,
      and the join holds nothing else. */
  lemma JoinMembers(branches: seq<Groups>, keep: seq<GroupView> -> bool, tuple: seq<GroupView>)
    ensures tuple in Join(branches, keep) <==>
      |tuple| == |branches| && (forall j :: 0 <= j < |tuple| ==> tuple[j] in branches[j]) && keep(tuple)
  {
    FilterMembers(AllTuples(branches), keep, tuple);
    if |tuple| == |branches| && (forall j :: 0 <= j < |tuple| ==> tuple[j] in branches[j]) && keep(tuple) {
      var ids := ChooseIds(branches, tuple);
      TupleAtRank(branches, ids);
      assert Picked(branches, ids) == tuple;
      assert tuple in AllTuples(branches);
    }
  }

  lemma ChooseIds(branches: seq<Groups>, tuple: seq<GroupView>) returns (ids: seq<nat>)
    requires |tuple| == |branches| && forall j :: 0 <= j < |tuple| ==> tuple[j] in branches[j]
    ensures InBox(ids, Counts(branches)) && Picked(branches, ids) == tuple
  {
    ids := [];
    for j := 0 to |branches|
      invariant |ids| == j
      invariant forall i :: 0 <= i < j ==> 1 <= ids[i] <= |branches[i]| && branches[i][ids[i] - 1] == tuple[i]
    {
      var g :| 0 <= g < |branches[j]| && branches[j][g] == tuple[j];
      ids := ids + [g + 1];
    }
  }

  /** Whenever a later clause holds, so does the first. */
  predicate OnlyFirstMatters(cs: seq<MergerClause>, t: seq<GroupView>) {
    forall k :: WellBranched(cs, |t|) && 0 < k < |cs| && ClauseHolds(cs, k, t) ==> ClauseHolds(cs, 0, t)
  }

  /** On a given input the join means what the query says iff no tuple depends
      on a later clause after the first one failed. */
  lemma MergerMeansDnf(cs: seq<MergerClause>, branches: seq<Groups>)
    requires WellBranched(cs, |branches|)
    ensures Join(branches, AcceptsTest(cs)) == Join(branches, DnfTest(cs)) <==>
      forall t :: t in AllTuples(branches) ==> OnlyFirstMatters(cs, t)
  {
    var p, q := AcceptsTest(cs), DnfTest(cs);
    var tuples := AllTuples(branches);
    forall t | t in tuples
      ensures p(t) ==> q(t)
      ensures (q(t) ==> p(t)) <==> OnlyFirstMatters(cs, t)
    {
      AcceptsAgainstDnf(cs, t);
    }
    FilterAgree(tuples, p, q);
  }

  lemma AcceptsAgainstDnf(cs: seq<MergerClause>, t: seq<GroupView>)
    requires WellBranched(cs, |t|)
    ensures Accepts(cs, t) ==> AcceptsDnf(cs, t)
    ensures (AcceptsDnf(cs, t) ==> Accepts(cs, t)) <==> OnlyFirstMatters(cs, t)
  {
  }
}
