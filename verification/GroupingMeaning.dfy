/** What the grouper's terms ask, for every operator, operator type and pair of
    fields, said of the bytes of the records alone, and the groups that follow
    (scripts/generate-functions.py, src/grouper.c). */
module GroupingMeaning {
  import opened Bytes
  import opened Cooked
  import opened Grouper
  import opened KeyGroups
  import opened Query
  import opened Runs
  import opened Seqs

  /** The delta a term applies: `NO` terms have none. */
  function AppliedDelta(t: GrouperTerm): u64 {
    if t.optype == NO then 0 else t.delta
  }

  /** The left field of the held record stands in the term's relation to the right
      field of the next record, on unbounded integers. */
  ghost predicate Related(t: GrouperTerm, held: Record, r: Record) {
    CompareIdeal(t.op, Load(held.bytes, t.field1.off, t.field1.w),
                 Load(r.bytes, t.field2.off, t.field2.w), AppliedDelta(t))
  }

  /** The bounds around the next record's number do not wrap to where the left
      field can reach. */
  ghost predicate Steady(t: GrouperTerm, r: Record) {
    Harmless(t.op, Val(r, t.field2), AppliedDelta(t), FieldTop(t.field1.w))
  }

  /** A single term lets the next record join exactly when the held record is
      related to it: the last member for a relative term, else the first. */
  lemma TermJoinsMeans(t: GrouperTerm, members: seq<Record>, r: Record)
    requires members != [] && Steady(t, r)
    ensures ClauseJoins([t], members, r) <==>
      Related(t, if t.optype == REL then members[|members| - 1] else members[0], r)
  {
    OneTerm(t, members, r);
    var held := members[if t.optype == REL then |members| - 1 else 0];
    var x, value := Val(held, t.field1), Val(r, t.field2);
    CompareMeaning(t.op, value, AppliedDelta(t), t.field1.w);
    assert Compare(t.op, x, value, AppliedDelta(t)) <==> CompareIdeal(t.op, x, value, AppliedDelta(t));
  }

  lemma OneTerm(t: GrouperTerm, members: seq<Record>, r: Record)
    requires members != []
    ensures ClauseJoins([t], members, r) <==>
      Compare(t.op, Val(members[if t.optype == REL then |members| - 1 else 0], t.field1), Val(r, t.field2),
              AppliedDelta(t))
  {
    var c := [t];
    assert ClauseJoins(c, members, r) <==> TermJoins(c[0], members, r);
  }

  /** Without a delta the six operators are the six comparisons of the held
      record's left field with the next record's right field, in this order. */
  lemma PlainTermJoins(t: GrouperTerm, members: seq<Record>, r: Record)
    requires members != [] && (t.optype == NO || t.delta == 0)
    ensures var held := if t.optype == REL then members[|members| - 1] else members[0];
      var x, y := Load(held.bytes, t.field1.off, t.field1.w), Load(r.bytes, t.field2.off, t.field2.w);
      var joins := ClauseJoins([t], members, r);
      && (t.op == EQ ==> (joins <==> x == y)) && (t.op == NE ==> (joins <==> x != y))
      && (t.op == GT ==> (joins <==> x > y)) && (t.op == GE ==> (joins <==> x >= y))
      && (t.op == LT ==> (joins <==> x < y)) && (t.op == LE ==> (joins <==> x <= y))
  {
    OneTerm(t, members, r);
  }

  /** Terms of a clause are AND'd, and a clause without terms lets everything in. */
  lemma JoinTermsAreAnded(c: GrouperClause, d: GrouperClause, members: seq<Record>, r: Record)
    requires members != []
    ensures ClauseJoins(c + d, members, r) <==> ClauseJoins(c, members, r) && ClauseJoins(d, members, r)
    ensures ClauseJoins([], members, r)
  {
    hide TermJoins;
    if ClauseJoins(c + d, members, r) {
      forall j | 0 <= j < |c|
        ensures TermJoins(c[j], members, r)
      {
        assert (c + d)[j] == c[j];
      }
      forall j | 0 <= j < |d|
        ensures TermJoins(d[j], members, r)
      {
        assert (c + d)[|c| + j] == d[j];
      }
    }
  }

  // ---- groups ----

  /** All terms relate the group's first or last member to the record. */
  ghost predicate AllRelated(c: GrouperClause, first: Record, last: Record, r: Record) {
    forall j :: 0 <= j < |c| ==> Related(c[j], if c[j].optype == REL then last else first, r)
  }

  ghost predicate AllSteady(c: GrouperClause, s: seq<Record>) {
    forall j, r :: 0 <= j < |c| && r in s ==> Steady(c[j], r)
  }

  lemma ClauseJoinsMeans(c: GrouperClause, members: seq<Record>, r: Record)
    requires members != [] && forall j :: 0 <= j < |c| ==> Steady(c[j], r)
    ensures ClauseJoins(c, members, r) <==> AllRelated(c, members[0], members[|members| - 1], r)
  {
    hide Related, Steady, TermJoins;
    forall j | 0 <= j < |c|
      ensures TermJoins(c[j], members, r) <==>
        Related(c[j], if c[j].optype == REL then members[|members| - 1] else members[0], r)
    {
      TermJoinsMeans(c[j], members, r);
      var one := [c[j]];
      assert ClauseJoins(one, members, r) <==> TermJoins(one[0], members, r);
    }
  }

  /** Inside each group every later member is related to the first or last member
      before it. */
  ghost predicate MembersRelated(c: GrouperClause, gs: seq<seq<Record>>) {
    forall i, k :: 0 <= i < |gs| && 1 <= k < |gs[i]| ==>
      AllRelated(c, gs[i][0], gs[i][k - 1], gs[i][k])
  }

  /** And the first record of the next group is not. */
  ghost predicate NextUnrelated(c: GrouperClause, gs: seq<seq<Record>>)
    requires forall i :: 0 <= i < |gs| ==> gs[i] != []
  {
    forall i :: 0 < i < |gs| ==>
      !AllRelated(c, gs[i - 1][0], gs[i - 1][|gs[i - 1]| - 1], gs[i][0])
  }

  /** The groups of a sorted array are determined by the relation alone: they are
      its cut into non-empty pieces inside which members are related and between
      which they are not. */
  lemma GroupsMean(c: GrouperClause, s: seq<Record>, gs: seq<seq<Record>>)
    requires AllSteady(c, s)
    ensures RunsOf(JoinTest(c), s, gs) <==>
      && Flatten(gs) == s && (forall i :: 0 <= i < |gs| ==> gs[i] != [])
      && MembersRelated(c, gs) && NextUnrelated(c, gs)
  {
    hide AllRelated, Steady, ClauseJoins;
    if RunsOf(JoinTest(c), s, gs) {
      RunsNonEmpty(c, s, gs);
    }
    if Flatten(gs) == s && forall i :: 0 <= i < |gs| ==> gs[i] != [] {
      forall i, k | 0 <= i < |gs| && 1 <= k < |gs[i]|
        ensures JoinTest(c)(gs[i][..k], gs[i][k]) <==> AllRelated(c, gs[i][0], gs[i][k - 1], gs[i][k])
      {
        MemberSteady(c, s, gs, i, k);
        ClauseJoinsMeans(c, gs[i][..k], gs[i][k]);
      }
      forall i | 0 < i < |gs|
        ensures JoinTest(c)(gs[i - 1], gs[i][0]) <==>
          AllRelated(c, gs[i - 1][0], gs[i - 1][|gs[i - 1]| - 1], gs[i][0])
      {
        MemberSteady(c, s, gs, i, 0);
        ClauseJoinsMeans(c, gs[i - 1], gs[i][0]);
      }
      GrownIffRelated(c, gs);
    }
  }

  lemma RunsNonEmpty(c: GrouperClause, s: seq<Record>, gs: seq<seq<Record>>)
    requires RunsOf(JoinTest(c), s, gs)
    ensures forall i :: 0 <= i < |gs| ==> gs[i] != []
  {
    forall i | 0 <= i < |gs|
      ensures gs[i] != []
    {
      assert Grown(JoinTest(c), gs[i]);
    }
  }

  lemma GrownIffRelated(c: GrouperClause, gs: seq<seq<Record>>)
    requires forall i :: 0 <= i < |gs| ==> gs[i] != []
    requires forall i, k :: 0 <= i < |gs| && 1 <= k < |gs[i]| ==>
      (JoinTest(c)(gs[i][..k], gs[i][k]) <==> AllRelated(c, gs[i][0], gs[i][k - 1], gs[i][k]))
    ensures AllGrown(JoinTest(c), gs) <==> MembersRelated(c, gs)
  {
    hide AllRelated, ClauseJoins;
    if AllGrown(JoinTest(c), gs) {
      forall i, k | 0 <= i < |gs| && 1 <= k < |gs[i]|
        ensures AllRelated(c, gs[i][0], gs[i][k - 1], gs[i][k])
      {
        assert Grown(JoinTest(c), gs[i]);
        assert JoinTest(c)(gs[i][..k], gs[i][k]);
      }
    }
    if MembersRelated(c, gs) {
      forall i | 0 <= i < |gs|
        ensures Grown(JoinTest(c), gs[i])
      {
        forall k | 1 <= k < |gs[i]|
          ensures JoinTest(c)(gs[i][..k], gs[i][k])
        {
          assert AllRelated(c, gs[i][0], gs[i][k - 1], gs[i][k]);
        }
      }
    }
  }

  lemma MemberSteady(c: GrouperClause, s: seq<Record>, gs: seq<seq<Record>>, i: nat, k: nat)
    requires AllSteady(c, s) && Flatten(gs) == s && i < |gs| && k < |gs[i]|
    ensures forall j :: 0 <= j < |c| ==> Steady(c[j], gs[i][k])
  {
    hide Steady;
    FlattenElements(gs);
    assert gs[i][k] in gs[i];
    assert gs[i][k] in s;
  }

  /** So are the groups the engine makes of a clause. */
  lemma EngineGroupsMean(io: Io, q: BranchQuery, c: GrouperClause, filtered: seq<Record>,
                         s: seq<Record>, gs: seq<GroupView>)
    requires ClauseGroups(io, q, c, filtered, s, gs) && AllSteady(c, filtered)
    ensures forall i :: 0 <= i < |gs| ==> gs[i].members != []
    ensures MembersRelated(c, MembersOf(gs)) && NextUnrelated(c, MembersOf(gs))
  {
    hide AllRelated, Steady, AllFinished;
    assert AllSteady(c, s) by {
      forall r | r in s
        ensures r in filtered
      {
        assert r in multiset(s);
      }
    }
    GroupsMean(c, s, MembersOf(gs));
    forall i | 0 <= i < |gs|
      ensures gs[i].members != []
    {
      assert MembersOf(gs)[i] != [];
    }
  }
}
