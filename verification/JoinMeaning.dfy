/** What the merger joins, said of the cooked numbers, the members, and the order
    of the groups alone (src/merger.c, scripts/generate-functions.py). */
module JoinMeaning {
  import opened Bytes
  import opened Cooked
  import opened CookedFields
  import opened CookedKeys
  import opened Grouper
  import opened KeyGroups
  import opened Lex
  import opened Merger
  import opened Odometer
  import opened Query
  import opened Seqs

  // ---- terms, clauses, queries ----

  /** A query of one term accepts a tuple iff the left branch's cooked number and
      the right branch's are both not zero and compare as the operator says. */
  lemma OneTermAccepts(t: MergerTerm, tuple: seq<GroupView>)
    requires t.branch1 < |tuple| && t.branch2 < |tuple|
    ensures var x, y := Load(tuple[t.branch1].cooked, t.field1.off, t.field1.w),
                        Load(tuple[t.branch2].cooked, t.field2.off, t.field2.w);
      var accepted := Accepts([[t]], tuple);
      && (accepted ==> x != 0 && y != 0)
      && (x != 0 && y != 0 ==>
            && (t.op == EQ ==> (accepted <==> x == y)) && (t.op == NE ==> (accepted <==> x != y))
            && (t.op == GT ==> (accepted <==> x > y)) && (t.op == GE ==> (accepted <==> x >= y))
            && (t.op == LT ==> (accepted <==> x < y)) && (t.op == LE ==> (accepted <==> x <= y)))
  {
    OneTerm(t, tuple);
  }

  lemma OneTerm(t: MergerTerm, tuple: seq<GroupView>)
    requires t.branch1 < |tuple| && t.branch2 < |tuple|
    ensures Accepts([[t]], tuple) <==> TermMerges(t, tuple)
  {
    var cs: seq<MergerClause> := [[t]];
    assert ClauseHolds(cs, 0, tuple) <==> TermMerges(cs[0][0], tuple);
  }

  /** Terms of a clause are AND'd; a query without terms accepts every tuple. */
  lemma MergerTermsAreAnded(c: MergerClause, d: MergerClause, tuple: seq<GroupView>)
    requires WellBranched([c], |tuple|) && WellBranched([d], |tuple|)
    ensures Accepts([c + d], tuple) <==> Accepts([c], tuple) && Accepts([d], tuple)
    ensures Accepts([[]], tuple) && Accepts([], tuple)
  {
    BranchesInside(c, tuple);
    BranchesInside(d, tuple);
    OneClause(c, tuple);
    OneClause(d, tuple);
    OneClause(c + d, tuple);
    OneClause([], tuple);
    if Accepts([c + d], tuple) {
      forall j | 0 <= j < |c|
        ensures TermMerges(c[j], tuple)
      {
        assert (c + d)[j] == c[j];
      }
      forall j | 0 <= j < |d|
        ensures TermMerges(d[j], tuple)
      {
        assert (c + d)[|c| + j] == d[j];
      }
    }
  }

  ghost predicate Branched(c: MergerClause, n: nat) {
    forall j :: 0 <= j < |c| ==> c[j].branch1 < n && c[j].branch2 < n
  }

  lemma BranchesInside(c: MergerClause, tuple: seq<GroupView>)
    requires WellBranched([c], |tuple|)
    ensures Branched(c, |tuple|)
  {
    var cs: seq<MergerClause> := [c];
    assert forall j :: 0 <= j < |c| ==> cs[0][j].branch1 < |tuple| && cs[0][j].branch2 < |tuple|;
  }

  lemma OneClause(c: MergerClause, tuple: seq<GroupView>)
    requires Branched(c, |tuple|)
    ensures Accepts([c], tuple) <==> forall j :: 0 <= j < |c| ==> TermMerges(c[j], tuple)
  {
    var cs: seq<MergerClause> := [c];
    assert ClauseHolds(cs, 0, tuple) <==> forall j :: 0 <= j < |c| ==> TermMerges(cs[0][j], tuple);
  }

  /** The engine asks the first clause only; the query means any of them. */
  lemma MergerClauseLaws(cs: seq<MergerClause>, tuple: seq<GroupView>)
    requires WellBranched(cs, |tuple|)
    ensures Accepts(cs, tuple) <==> cs == [] || Accepts([cs[0]], tuple)
    ensures AcceptsDnf(cs, tuple) <==> cs == [] || exists k :: 0 <= k < |cs| && Accepts([cs[k]], tuple)
  {
    hide TermMerges;
    forall k | 0 <= k < |cs|
      ensures Accepts([cs[k]], tuple) <==> ClauseHolds(cs, k, tuple)
    {
      assert Branched(cs[k], |tuple|);
      OneClause(cs[k], tuple);
    }
  }

  // ---- order ----

  /** The group numbers behind the i-th tuple of the nested loops. */
  ghost function TupleNumbers(branches: seq<Groups>, i: nat): (ids: seq<nat>)
    requires i < |AllTuples(branches)|
    ensures InBox(ids, Counts(branches)) && Rank(ids, Counts(branches)) == i
    ensures AllTuples(branches)[i] == Picked(branches, ids)
  {
    NestedLoopsByRank(Counts(branches));
    NestedLoops(Counts(branches))[i]
  }

  lemma FirstDifference(t: seq<nat>, u: seq<nat>) returns (k: nat)
    requires |t| == |u| && LexBelow(t, u)
    ensures k < |t| && t[..k] == u[..k] && t[k] < u[k]
  {
    k :| 0 <= k < |t| && t[..k] == u[..k] && t[k] < u[k];
  }

  /** The join is in lexicographic order of the group numbers: of two of its tuples
      the earlier one has the smaller number at the first branch where they
      differ. */
  lemma JoinIsLexicographic(branches: seq<Groups>, keep: seq<GroupView> -> bool, p: nat, q: nat)
    returns (a: seq<nat>, b: seq<nat>, k: nat)
    requires p < q < |Join(branches, keep)|
    ensures |a| == |b| == |Join(branches, keep)[p]| == |Join(branches, keep)[q]| == |branches|
    ensures forall j :: 0 <= j < |branches| ==> a[j] < |branches[j]| && b[j] < |branches[j]|
    ensures forall j :: 0 <= j < |branches| ==> Join(branches, keep)[p][j] == branches[j][a[j]]
    ensures forall j :: 0 <= j < |branches| ==> Join(branches, keep)[q][j] == branches[j][b[j]]
    ensures k < |branches| && a[..k] == b[..k] && a[k] < b[k]
  {
    hide AllTuples, NestedLoops, Rank, LexBelow;
    var i, j := FilterPositions(AllTuples(branches), keep, p, q);
    var n := Counts(branches);
    var ids, ids' := TupleNumbers(branches, i), TupleNumbers(branches, j);
    RankIsLexicographic(ids, ids', n);
    k := FirstDifference(ids, ids');
    a := seq(|ids|, m requires 0 <= m < |ids| => ids[m] - 1);
    b := seq(|ids'|, m requires 0 <= m < |ids'| => ids'[m] - 1);
    forall m | 0 <= m < k
      ensures a[m] == b[m]
    {
      assert ids[..k][m] == ids'[..k][m];
    }
  }

  // ---- joins by key ----

  /** A branch grouped by a clause of plain keys. */
  datatype Keyed = Keyed(query: BranchQuery, l: nat, filtered: seq<Record>, sorted: seq<Record>,
                         groups: seq<GroupView>)

  ghost predicate GroupedByKeys(io: Io, k: Keyed) {
    && k.l < |k.query.grouperClauses| && PlainKeys(k.query.grouperClauses[k.l])
    && ClauseGroups(io, k.query, k.query.grouperClauses[k.l], k.filtered, k.sorted, k.groups)
  }

  predicate KeyField(k: Keyed, f: Field) {
    && k.l < |k.query.grouperClauses| && IsKey(k.query, k.l, f)
    && Fits(k.query, f) && NotRecomputed(k.query, f)
  }

  /** An equality of a key of one branch with a key of another. */
  predicate KeyTerm(ks: seq<Keyed>, t: MergerTerm) {
    && t.op == EQ && t.branch1 < |ks| && t.branch2 < |ks|
    && KeyField(ks[t.branch1], t.field1) && KeyField(ks[t.branch2], t.field2)
  }

  /** Every record of the one agrees with every record of the other, on a number
      other than zero. */
  ghost predicate AllAgreeOn(t: MergerTerm, xs: seq<Record>, ys: seq<Record>) {
    forall a, b :: 0 <= a < |xs| && 0 <= b < |ys| ==>
      Number(xs[a], t.field1) == Number(ys[b], t.field2) != 0
  }

  lemma TermMergesMembers(io: Io, ks: seq<Keyed>, t: MergerTerm, tuple: seq<GroupView>)
    requires |tuple| == |ks| && KeyTerm(ks, t)
    requires forall j :: 0 <= j < |ks| ==> GroupedByKeys(io, ks[j]) && tuple[j] in ks[j].groups
    ensures TermMerges(t, tuple) <==> AllAgreeOn(t, tuple[t.branch1].members, tuple[t.branch2].members)
  {
    hide GroupsMerge, ClauseGroups, PlainKeys, IsKey, Fits, NotRecomputed, Val;
    var k1, k2 := ks[t.branch1], ks[t.branch2];
    var i1 :| 0 <= i1 < |k1.groups| && k1.groups[i1] == tuple[t.branch1];
    var i2 :| 0 <= i2 < |k2.groups| && k2.groups[i2] == tuple[t.branch2];
    MergedByKey(io, k1.query, k1.filtered, k1.l, k1.sorted, k1.groups, i1,
                k2.query, k2.filtered, k2.l, k2.sorted, k2.groups, i2, t);
    MatchesByNumber(t, tuple[t.branch1].members, tuple[t.branch2].members);
  }

  lemma MatchesByNumber(t: MergerTerm, xs: seq<Record>, ys: seq<Record>)
    ensures MembersMatch(t, xs, ys) <==> AllAgreeOn(t, xs, ys)
  {
    hide LoadField;
    forall a, b | 0 <= a < |xs| && 0 <= b < |ys|
      ensures Matching(t, xs[a], ys[b]) <==> Number(xs[a], t.field1) == Number(ys[b], t.field2) != 0
    {
      ValIsLoad(xs[a], t.field1);
      ValIsLoad(ys[b], t.field2);
    }
  }

  /** Each branch's groups are some of those its keys give it. */
  ghost predicate KeyedBranches(io: Io, ks: seq<Keyed>, branches: seq<Groups>) {
    && |ks| == |branches| && (forall j :: 0 <= j < |ks| ==> GroupedByKeys(io, ks[j]))
    && forall j, g :: 0 <= j < |ks| && g in branches[j] ==> g in ks[j].groups
  }

  predicate KeyClause(ks: seq<Keyed>, c: MergerClause) {
    forall i :: 0 <= i < |c| ==> KeyTerm(ks, c[i])
  }

  ghost predicate ClauseAgrees(c: MergerClause, tuple: seq<GroupView>) {
    forall i :: 0 <= i < |c| ==> TermAgrees(c[i], tuple)
  }

  ghost predicate TermAgrees(t: MergerTerm, tuple: seq<GroupView>) {
    && t.branch1 < |tuple| && t.branch2 < |tuple|
    && AllAgreeOn(t, tuple[t.branch1].members, tuple[t.branch2].members)
  }

  /** A merger clause of key equalities joins exactly the choices of one group per
      branch in which, for every term of the clause, all members of the one group
      agree with all members of the other. */
  lemma KeyJoin(io: Io, ks: seq<Keyed>, branches: seq<Groups>, c: MergerClause, tuple: seq<GroupView>)
    requires KeyedBranches(io, ks, branches) && KeyClause(ks, c)
    ensures tuple in Join(branches, AcceptsTest([c])) <==>
      && |tuple| == |branches| && (forall j :: 0 <= j < |tuple| ==> tuple[j] in branches[j])
      && ClauseAgrees(c, tuple)
  {
    hide GroupedByKeys, KeyField, AllAgreeOn, TermMerges, ClauseHolds, Accepts;
    JoinMembers(branches, AcceptsTest([c]), tuple);
    if |tuple| == |branches| && forall j :: 0 <= j < |tuple| ==> tuple[j] in branches[j] {
      OneClause(c, tuple);
      forall i | 0 <= i < |c|
        ensures TermMerges(c[i], tuple) <==> TermAgrees(c[i], tuple)
      {
        TermMergesMembers(io, ks, c[i], tuple);
      }
    }
  }
}
