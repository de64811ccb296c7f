/** How many clauses a merger may have for its clause loop to mean their
    disjunction, judged on groups as the grouper builds them (src/merger.c). */
module MergerClauses {
  import opened Bytes
  import opened Cooked
  import opened CookedFields
  import opened CookedKeys
  import opened Grouper
  import opened Merger
  import opened Query
  import opened Seqs

  /** The group is all that the grouper makes of the group's own members. */
  ghost predicate Built(io: Io, q: BranchQuery, g: GroupView) {
    g.members != [] && Grouped(io, q, g.members, [g], [[g]], [g.members])
  }

  ghost predicate AllBuilt(io: Io, q: BranchQuery, tuple: seq<GroupView>) {
    forall j :: 0 <= j < |tuple| ==> Built(io, q, tuple[j])
  }

  /** A query of one clause, inside the record, that has f as a key and leaves it
      alone otherwise. */
  predicate KeyQuery(io: Io, q: BranchQuery, f: Field) {
    && InBounds(io, q) && |q.grouperClauses| == 1
    && IsKey(q, 0, f) && Fits(q, f) && NotRecomputed(q, f)
  }

  /** All fields the terms compare lie inside the cooked records. */
  predicate ReadsInside(cs: seq<MergerClause>, size: nat) {
    forall k, j :: 0 <= k < |cs| && 0 <= j < |cs[k]| ==>
      cs[k][j].field1.Inside(size) && cs[k][j].field2.Inside(size)
  }

  /** One record makes one group. */
  lemma LoneGroup(io: Io, q: BranchQuery, r: Record) returns (g: GroupView)
    requires InBounds(io, q) && |q.grouperClauses| == 1
    ensures Built(io, q, g) && g.members == [r]
  {
    hide Finished, InBounds;
    g := FinishExists(io, q, [r]);
    FlattenSnoc([], [r]);
    assert [] + [[r]] == [[r]] && MembersOf([g]) == [[r]];
    FlattenSnoc([], [g]);
    assert [] + [[g]] == [[g]] && Flatten([]) + [g] == [g];
    assert ClauseGroups(io, q, q.grouperClauses[0], [r], [r], [g]);
  }

  lemma BuiltKey(io: Io, q: BranchQuery, f: Field, g: GroupView)
    requires KeyQuery(io, q, f) && Built(io, q, g)
    ensures LoadField(g.cooked, f) == Val(g.members[0], f)
    ensures |g.cooked| == io.recSize
  {
    hide Val, LoadField, Fits, NotRecomputed;
    assert ClauseGroups(io, q, q.grouperClauses[0], g.members, g.members, [g]);
    assert Finished(io, q, [g][0]);
    CookedKeepsFirst(io, q, g, 0, f);
  }

  /** Both records have a key, not the same one; the merger ignores zeros. */
  predicate DifferentKeys(f: Field, r1: Record, r2: Record) {
    Val(r1, f) != 0 && Val(r2, f) != 0 && Val(r1, f) != Val(r2, f)
  }

  /** First "equal in f", then n - 1 times "different in f". */
  function EqThenNe(f: Field, n: nat): (cs: seq<MergerClause>)
    requires 2 <= n
    ensures |cs| == n && cs[0] == [MergerTerm(0, f, 1, f, EQ)] && cs[1] == [MergerTerm(0, f, 1, f, NE)]
  {
    [[MergerTerm(0, f, 1, f, EQ)]] + seq(n - 1, i => [MergerTerm(0, f, 1, f, NE)])
  }

  /** Two groups with different keys, neither zero: the second clause holds of
      them, but the clause loop never asks it. */
  lemma SecondClauseIgnored(io: Io, q: BranchQuery, f: Field, g1: GroupView, g2: GroupView, n: nat)
    requires KeyQuery(io, q, f) && Built(io, q, g1) && Built(io, q, g2) && 2 <= n
    requires DifferentKeys(f, g1.members[0], g2.members[0])
    ensures AcceptsDnf(EqThenNe(f, n), [g1, g2]) && !Accepts(EqThenNe(f, n), [g1, g2])
  {
    hide Val, LoadField, KeyQuery, Built;
    var cs, tuple := EqThenNe(f, n), [g1, g2];
    BuiltKey(io, q, f, g1);
    BuiltKey(io, q, f, g2);
    assert !TermMerges(cs[0][0], tuple) && TermMerges(cs[1][0], tuple);
    assert ClauseHolds(cs, 1, tuple);
  }

  /** Over queries with n clauses and tuples of groups the grouper builds, the
      clause loop agrees with the disjunctive normal form exactly when n is at
      most one; two records that differ in a key are enough to tell. */
  lemma DnfOnlyForOneClause(io: Io, q: BranchQuery, f: Field, r1: Record, r2: Record, n: nat)
    requires KeyQuery(io, q, f) && DifferentKeys(f, r1, r2)
    ensures (forall cs: seq<MergerClause>, tuple: seq<GroupView> ::
               |cs| == n && ReadsInside(cs, io.recSize) && AllBuilt(io, q, tuple) ==>
               (Accepts(cs, tuple) <==> AcceptsDnf(cs, tuple)))
            <==> n <= 1
  {
    hide Val, Built, InBounds, Fits, NotRecomputed;
    if n >= 2 {
      var g1 := LoneGroup(io, q, r1);
      var g2 := LoneGroup(io, q, r2);
      KeyInside(io, q, f);
      SecondClauseIgnored(io, q, f, g1, g2, n);
      assert AllBuilt(io, q, [g1, g2]) && ReadsInside(EqThenNe(f, n), io.recSize);
    }
  }

  lemma KeyInside(io: Io, q: BranchQuery, f: Field)
    requires KeyQuery(io, q, f)
    ensures f.Inside(io.recSize)
  {
    var j :| 0 <= j < |q.grouperClauses[0]|
      && q.grouperClauses[0][j].field1 == f && q.grouperClauses[0][j].field2 == f;
    assert TermInside(q.grouperClauses[0][j], io.recSize);
  }
}
