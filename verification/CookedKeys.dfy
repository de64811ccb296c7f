/** Joins through cooked records: key fields stand for all members of a group, so
    joining two groups by key joins their members (src/merger.c, src/grouper.c). */
module CookedKeys {
  import opened Bytes
  import opened Cooked
  import opened CookedFields
  import opened Grouper
  import opened KeyGroups
  import opened Query
  import opened Runs
  import opened Sorting

  /** Clause l compares f with itself. */
  predicate IsKey(q: BranchQuery, l: nat, f: Field)
    requires l < |q.grouperClauses|
  {
    exists j :: 0 <= j < |q.grouperClauses[l]|
      && q.grouperClauses[l][j].field1 == f && q.grouperClauses[l][j].field2 == f
  }

  /** The cooked record's key is the first member's. */
  lemma CookedKeepsFirst(io: Io, q: BranchQuery, g: GroupView, l: nat, f: Field)
    requires Finished(io, q, g) && Fits(q, f) && NotRecomputed(q, f)
    requires l < |q.grouperClauses| && IsKey(q, l, f)
    ensures g.members != [] && LoadField(g.cooked, f) == Val(g.members[0], f)
  {
    hide Finished, Fits, NotRecomputed;
    var j :| 0 <= j < |q.grouperClauses[l]|
      && q.grouperClauses[l][j].field1 == f && q.grouperClauses[l][j].field2 == f;
    CookedGrouperFields(io, q, g, l, j, f);
  }

  /** Key fields of the cooked record equal those of every member, in each group
      of a clause of plain keys. */
  lemma CookedKeyIsEveryMembers(io: Io, q: BranchQuery, filtered: seq<Record>, l: nat, s: seq<Record>,
                                gs: seq<GroupView>, i: nat, a: nat, f: Field)
    requires l < |q.grouperClauses| && PlainKeys(q.grouperClauses[l])
    requires ClauseGroups(io, q, q.grouperClauses[l], filtered, s, gs)
    requires Fits(q, f) && NotRecomputed(q, f) && IsKey(q, l, f)
    requires i < |gs| && a < |gs[i].members|
    ensures LoadField(gs[i].cooked, f) == Val(gs[i].members[a], f)
  {
    hide Val, LoadField, Finished, SortedBy, Fits, NotRecomputed;
    var c := q.grouperClauses[l];
    assert Finished(io, q, gs[i]);
    CookedKeepsFirst(io, q, gs[i], l, f);
    assert MembersOf(gs)[i] == gs[i].members;
    assert Grown(JoinTest(c), gs[i].members);
    RunSameKey(c, gs[i].members);
    var j :| 0 <= j < |c| && c[j].field1 == f && c[j].field2 == f;
    assert Key(c, gs[i].members[a])[j] == Key(c, gs[i].members[0])[j];
  }

  /** A field a one-clause filter pins to a value has that value in the cooked
      record of every group of accepted records. */
  lemma CookedFilterValue(io: Io, q: BranchQuery, g: GroupView, j: nat)
    requires Finished(io, q, g) && |q.filterClauses| == 1 && j < |q.filterClauses[0]|
    requires q.filterClauses[0][j].op == EQ && q.filterClauses[0][j].delta == 0
    requires Fits(q, q.filterClauses[0][j].field) && NotRecomputed(q, q.filterClauses[0][j].field)
    requires forall r :: r in g.members ==> DnfMatches(q.filterClauses, r.bytes)
    ensures var t := q.filterClauses[0][j]; Load(g.cooked, t.field.off, t.field.w) == t.value
  {
    hide Finished, Fits, NotRecomputed;
    CookedFilterField(io, q, g, 0, j);
    var first := g.members[0];
    assert first in g.members;
    assert ClauseMatches(q.filterClauses[0], first.bytes);
    assert BytesMatch(q.filterClauses[0][j], first.bytes);
  }

  /** A key term of the merger holds of two groups exactly when every member of
      one agrees with every member of the other, on a value other than zero. */
  lemma MergedByKey(io: Io, q1: BranchQuery, f1: seq<Record>, l1: nat, s1: seq<Record>, gs1: seq<GroupView>, i1: nat,
                    q2: BranchQuery, f2: seq<Record>, l2: nat, s2: seq<Record>, gs2: seq<GroupView>, i2: nat,
                    t: MergerTerm)
    requires l1 < |q1.grouperClauses| && PlainKeys(q1.grouperClauses[l1])
    requires l2 < |q2.grouperClauses| && PlainKeys(q2.grouperClauses[l2])
    requires ClauseGroups(io, q1, q1.grouperClauses[l1], f1, s1, gs1) && i1 < |gs1|
    requires ClauseGroups(io, q2, q2.grouperClauses[l2], f2, s2, gs2) && i2 < |gs2|
    requires Fits(q1, t.field1) && NotRecomputed(q1, t.field1) && IsKey(q1, l1, t.field1)
    requires Fits(q2, t.field2) && NotRecomputed(q2, t.field2) && IsKey(q2, l2, t.field2)
    requires t.op == EQ
    ensures GroupsMerge(t, gs1[i1], gs2[i2]) <==> MembersMatch(t, gs1[i1].members, gs2[i2].members)
  {
    hide ClauseGroups, Val, LoadField, Fits, NotRecomputed, PlainKeys, IsKey;
    SomeMember(io, q1, q1.grouperClauses[l1], f1, s1, gs1, i1);
    SomeMember(io, q2, q2.grouperClauses[l2], f2, s2, gs2, i2);
    forall a | 0 <= a < |gs1[i1].members|
      ensures LoadField(gs1[i1].cooked, t.field1) == Val(gs1[i1].members[a], t.field1)
    {
      CookedKeyIsEveryMembers(io, q1, f1, l1, s1, gs1, i1, a, t.field1);
    }
    forall b | 0 <= b < |gs2[i2].members|
      ensures LoadField(gs2[i2].cooked, t.field2) == Val(gs2[i2].members[b], t.field2)
    {
      CookedKeyIsEveryMembers(io, q2, f2, l2, s2, gs2, i2, b, t.field2);
    }
    if MembersMatch(t, gs1[i1].members, gs2[i2].members) {
      assert Matching(t, gs1[i1].members[0], gs2[i2].members[0]);
    }
  }

  predicate Matching(t: MergerTerm, x: Record, y: Record) {
    Val(x, t.field1) == Val(y, t.field2) != 0
  }

  predicate MembersMatch(t: MergerTerm, xs: seq<Record>, ys: seq<Record>) {
    forall a, b :: 0 <= a < |xs| && 0 <= b < |ys| ==> Matching(t, xs[a], ys[b])
  }

  lemma SomeMember(io: Io, q: BranchQuery, c: GrouperClause, filtered: seq<Record>, s: seq<Record>,
                   gs: seq<GroupView>, i: nat)
    requires ClauseGroups(io, q, c, filtered, s, gs) && i < |gs|
    ensures gs[i].members != []
  {
    ClausePartitions(io, q, c, filtered, s, gs);
  }
}
