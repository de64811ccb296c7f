/** Grouping by equal keys: the scan over the sorted array finds the
    equivalence classes that pairwise comparison would. */
module KeyGroups {
  import opened Lex
  import opened Query
  import opened Runs
  import opened Seqs
  import opened Sorting

  /** The grouper's scan test for a clause. */
  function JoinTest(c: GrouperClause): (seq<Record>, Record) -> bool {
    (members: seq<Record>, r: Record) => members != [] && ClauseJoins(c, members, r)
  }

  /** All terms ask for equality of a field with itself, without a delta or with
      an operator type that ignores it. */
  predicate PlainKeys(c: GrouperClause) {
    forall j :: 0 <= j < |c| ==>
      c[j].op.EQ? && (c[j].delta == 0 || c[j].optype.NO?) && c[j].field1 == c[j].field2
  }

  ghost predicate SameKey(c: GrouperClause, g: seq<Record>) {
    forall a :: 0 <= a < |g| ==> Key(c, g[a]) == Key(c, g[0])
  }

  /** Whatever the operator type, the test compares keys. */
  lemma JoinsIffSameKey(c: GrouperClause, g: seq<Record>, r: Record)
    requires PlainKeys(c) && g != [] && SameKey(c, g)
    ensures ClauseJoins(c, g, r) <==> Key(c, g[0]) == Key(c, r)
  {
    forall j | 0 <= j < |c|
      ensures TermJoins(c[j], g, r) <==> Key(c, g[0])[j] == Key(c, r)[j]
    {
      var held := g[if c[j].optype.REL? then |g| - 1 else 0];
      assert Key(c, held)[j] == Key(c, g[0])[j];
    }
    if Key(c, g[0]) == Key(c, r) {
      forall j | 0 <= j < |c|
        ensures TermJoins(c[j], g, r)
      {
        assert Key(c, g[0])[j] == Key(c, r)[j];
      }
    }
  }

  lemma {:induction false} GrownSameKey(c: GrouperClause, g: seq<Record>, n: nat)
    requires PlainKeys(c) && Grown(JoinTest(c), g) && n <= |g|
    ensures SameKey(c, g[..n])
  {
    hide Val, ClauseJoins;
    if n > 1 {
      GrownSameKey(c, g, n - 1);
      assert JoinTest(c)(g[..n - 1], g[n - 1]);
      JoinsIffSameKey(c, g[..n - 1], g[n - 1]);
    }
  }

  lemma RunSameKey(c: GrouperClause, g: seq<Record>)
    requires PlainKeys(c) && Grown(JoinTest(c), g)
    ensures SameKey(c, g)
  {
    GrownSameKey(c, g, |g|);
    assert g[..|g|] == g;
  }

  ghost function GroupKey(c: GrouperClause, gs: seq<seq<Record>>, i: nat): seq<nat>
    requires i < |gs| && AllGrown(JoinTest(c), gs)
  {
    assert Grown(JoinTest(c), gs[i]);
    Key(c, gs[i][0])
  }

  lemma NextKeyAbove(c: GrouperClause, s: seq<Record>, gs: seq<seq<Record>>, i: nat)
    requires PlainKeys(c) && SortedBy(c, s) && RunsOf(JoinTest(c), s, gs) && i + 1 < |gs|
    ensures LexBelow(GroupKey(c, gs, i), GroupKey(c, gs, i + 1))
  {
    assert Grown(JoinTest(c), gs[i]) && Grown(JoinTest(c), gs[i + 1]);
    var p, q := MembersInOrder(gs, i, 0, i + 1, 0);
    assert NotAbove(c, s[p], s[q]);
    RunSameKey(c, gs[i]);
    assert !JoinTest(c)(gs[i + 1 - 1], gs[i + 1][0]);
    JoinsIffSameKey(c, gs[i], gs[i + 1][0]);
    LexTrichotomy(GroupKey(c, gs, i), GroupKey(c, gs, i + 1));
  }

  /** Group keys climb strictly, so no key comes back in a later group. */
  lemma {:induction false} KeysClimb(c: GrouperClause, s: seq<Record>, gs: seq<seq<Record>>, i: nat, j: nat)
    requires PlainKeys(c) && SortedBy(c, s) && RunsOf(JoinTest(c), s, gs) && i < j < |gs|
    ensures LexBelow(GroupKey(c, gs, i), GroupKey(c, gs, j))
    decreases j - i
  {
    hide LexBelow, PlainKeys, SortedBy, Flatten, AllClosed;
    NextKeyAbove(c, s, gs, j - 1);
    if i < j - 1 {
      KeysClimb(c, s, gs, i, j - 1);
      LexTransitive(GroupKey(c, gs, i), GroupKey(c, gs, j - 1), GroupKey(c, gs, j));
    }
  }

  /** Two filtered records share a group exactly when they agree on all keys. */
  lemma GroupsAreKeyClasses(c: GrouperClause, s: seq<Record>, gs: seq<seq<Record>>, i: nat, a: nat, j: nat, b: nat)
    requires PlainKeys(c) && SortedBy(c, s) && RunsOf(JoinTest(c), s, gs)
    requires i < |gs| && a < |gs[i]| && j < |gs| && b < |gs[j]|
    ensures i == j <==> Key(c, gs[i][a]) == Key(c, gs[j][b])
  {
    assert Grown(JoinTest(c), gs[i]) && Grown(JoinTest(c), gs[j]);
    RunSameKey(c, gs[i]);
    RunSameKey(c, gs[j]);
    if i != j {
      var lo, hi := if i < j then i else j, if i < j then j else i;
      KeysClimb(c, s, gs, lo, hi);
      LexTrichotomy(GroupKey(c, gs, lo), GroupKey(c, gs, hi));
    }
  }

  ghost function KeysOf(c: GrouperClause, s: seq<Record>): set<seq<nat>> {
    set r | r in s :: Key(c, r)
  }

  /** Key of the i-th group for i below n, as a set of n keys. */
  lemma {:induction false} FirstKeys(c: GrouperClause, s: seq<Record>, gs: seq<seq<Record>>, n: nat)
    returns (keys: set<seq<nat>>)
    requires PlainKeys(c) && SortedBy(c, s) && RunsOf(JoinTest(c), s, gs) && n <= |gs|
    ensures |keys| == n
    ensures forall k :: k in keys <==> exists i :: 0 <= i < n && GroupKey(c, gs, i) == k
  {
    keys := {};
    for i := 0 to n
      invariant |keys| == i
      invariant forall k :: k in keys <==> exists m :: 0 <= m < i && GroupKey(c, gs, m) == k
    {
      var k := GroupKey(c, gs, i);
      forall m | 0 <= m < i
        ensures GroupKey(c, gs, m) != k
      {
        KeysClimb(c, s, gs, m, i);
        LexTrichotomy(GroupKey(c, gs, m), k);
      }
      keys := keys + {k};
    }
  }

  /** There are as many groups as distinct keys. */
  lemma GroupCountIsKeyCount(c: GrouperClause, s: seq<Record>, gs: seq<seq<Record>>)
    requires PlainKeys(c) && SortedBy(c, s) && RunsOf(JoinTest(c), s, gs)
    ensures |gs| == |KeysOf(c, s)|
  {
    var keys := FirstKeys(c, s, gs, |gs|);
    FlattenElements(gs);
    forall k | k in keys
      ensures k in KeysOf(c, s)
    {
      var i :| 0 <= i < |gs| && GroupKey(c, gs, i) == k;
      assert Grown(JoinTest(c), gs[i]) && gs[i][0] in gs[i];
    }
    forall r | r in s
      ensures Key(c, r) in keys
    {
      var i, a := WhereIs(gs, r);
      assert Grown(JoinTest(c), gs[i]);
      RunSameKey(c, gs[i]);
      assert Key(c, r) == GroupKey(c, gs, i);
    }
    assert keys == KeysOf(c, s);
  }

  lemma WhereIs(gs: seq<seq<Record>>, r: Record) returns (i: nat, a: nat)
    requires r in Flatten(gs)
    ensures i < |gs| && a < |gs[i]| && gs[i][a] == r
  {
    FlattenElements(gs);
    i :| 0 <= i < |gs| && r in gs[i];
    a :| 0 <= a < |gs[i]| && gs[i][a] == r;
  }

  /** How often a record is in the group that holds its key. */
  lemma CountInGroup(c: GrouperClause, s: seq<Record>, gs: seq<seq<Record>>, i: nat, r: Record)
    requires PlainKeys(c) && SortedBy(c, s) && RunsOf(JoinTest(c), s, gs) && i < |gs|
    ensures multiset(gs[i])[r] == if Key(c, r) == GroupKey(c, gs, i) then multiset(s)[r] else 0
  {
    assert Grown(JoinTest(c), gs[i]);
    forall j, b | 0 <= j < |gs| && 0 <= b < |gs[j]| && gs[j][b] == r
      ensures j == i <==> Key(c, r) == GroupKey(c, gs, i)
    {
      GroupsAreKeyClasses(c, s, gs, j, b, i, 0);
    }
    if Key(c, r) == GroupKey(c, gs, i) {
      CountInOneRun(gs, i, r);
    }
  }

  lemma {:induction false} SameKeySequence(c: GrouperClause, s: seq<Record>, gs: seq<seq<Record>>,
                                           c': GrouperClause, s': seq<Record>, gs': seq<seq<Record>>, i: nat)
    requires PlainKeys(c) && SortedBy(c, s) && RunsOf(JoinTest(c), s, gs)
    requires PlainKeys(c') && SortedBy(c', s') && RunsOf(JoinTest(c'), s', gs')
    requires SameFields(c, c') && multiset(s) == multiset(s')
    requires i < |gs| && i < |gs'|
    ensures GroupKey(c, gs, i) == GroupKey(c', gs', i)
  {
    forall m | 0 <= m < i
      ensures GroupKey(c, gs, m) == GroupKey(c', gs', m)
    {
      SameKeySequence(c, s, gs, c', s', gs', m);
    }
    KeyNotBelow(c, s, gs, c', s', gs', i);
    KeyNotBelow(c', s', gs', c, s, gs, i);
    LexTrichotomy(GroupKey(c, gs, i), GroupKey(c', gs', i));
  }

  /** With equal keys before, the next key on one side is also on the other
      side, and not before. */
  lemma KeyNotBelow(c: GrouperClause, s: seq<Record>, gs: seq<seq<Record>>,
                    c': GrouperClause, s': seq<Record>, gs': seq<seq<Record>>, i: nat)
    requires PlainKeys(c) && SortedBy(c, s) && RunsOf(JoinTest(c), s, gs)
    requires PlainKeys(c') && SortedBy(c', s') && RunsOf(JoinTest(c'), s', gs')
    requires SameFields(c, c') && multiset(s) == multiset(s')
    requires i < |gs| && i < |gs'|
    requires forall m :: 0 <= m < i ==> GroupKey(c, gs, m) == GroupKey(c', gs', m)
    ensures !LexBelow(GroupKey(c, gs, i), GroupKey(c', gs', i))
  {
    var k := GroupKey(c, gs, i);
    assert Grown(JoinTest(c), gs[i]);
    var r := gs[i][0];
    FlattenElements(gs);
    assert r in gs[i] && r in s;
    assert r in multiset(s) && r in s';
    var j, b := WhereIs(gs', r);
    assert Grown(JoinTest(c'), gs'[j]);
    RunSameKey(c', gs'[j]);
    KeyOfSameFields(c, c', r);
    assert GroupKey(c', gs', j) == k;
    if j < i {
      KeysClimb(c, s, gs, j, i);
      LexTrichotomy(GroupKey(c, gs, j), k);
    } else if i < j {
      KeysClimb(c', s', gs', i, j);
      LexTrichotomy(GroupKey(c', gs', i), k);
    } else {
      LexTrichotomy(k, k);
    }
  }

  /** The clauses look at the same fields; operator types may differ. */
  predicate SameFields(c: GrouperClause, c': GrouperClause) {
    |c| == |c'| && forall j :: 0 <= j < |c| ==> c[j].field2 == c'[j].field2
  }

  lemma KeyOfSameFields(c: GrouperClause, c': GrouperClause, r: Record)
    requires SameFields(c, c')
    ensures Key(c, r) == Key(c', r)
  {
  }

  /** Neither the permutation the sort picked nor the operator type matters:
      group for group, the same records. */
  lemma GroupsIndependentOfSort(c: GrouperClause, s: seq<Record>, gs: seq<seq<Record>>,
                                c': GrouperClause, s': seq<Record>, gs': seq<seq<Record>>)
    requires PlainKeys(c) && SortedBy(c, s) && RunsOf(JoinTest(c), s, gs)
    requires PlainKeys(c') && SortedBy(c', s') && RunsOf(JoinTest(c'), s', gs')
    requires SameFields(c, c') && multiset(s) == multiset(s')
    ensures |gs| == |gs'| && forall i :: 0 <= i < |gs| ==> multiset(gs[i]) == multiset(gs'[i])
  {
    GroupCountIsKeyCount(c, s, gs);
    GroupCountIsKeyCount(c', s', gs');
    SameKeySet(c, s, c', s');
    forall i | 0 <= i < |gs|
      ensures multiset(gs[i]) == multiset(gs'[i])
    {
      SameKeySequence(c, s, gs, c', s', gs', i);
      forall r | r in gs[i] || r in gs'[i]
        ensures multiset(gs[i])[r] == multiset(gs'[i])[r]
      {
        CountInGroup(c, s, gs, i, r);
        CountInGroup(c', s', gs', i, r);
        KeyOfSameFields(c, c', r);
      }
    }
  }

  lemma SameKeySet(c: GrouperClause, s: seq<Record>, c': GrouperClause, s': seq<Record>)
    requires SameFields(c, c') && multiset(s) == multiset(s')
    ensures KeysOf(c, s) == KeysOf(c', s')
  {
    forall r | r in s || r in s'
      ensures r in s && r in s' && Key(c, r) == Key(c', r)
    {
      assert r in multiset(s) || r in multiset(s');
      KeyOfSameFields(c, c', r);
    }
  }

  /** On one sorted array `REL`, `ABS` and `NO` give the very same groups. */
  lemma OperatorTypeIrrelevant(c: GrouperClause, c': GrouperClause, s: seq<Record>,
                               gs: seq<seq<Record>>, gs': seq<seq<Record>>)
    requires PlainKeys(c) && PlainKeys(c') && SameFields(c, c')
    requires RunsOf(JoinTest(c), s, gs) && RunsOf(JoinTest(c'), s, gs')
    ensures gs == gs'
  {
    forall i, k | 0 <= i < |gs| && 1 <= k < |gs[i]|
      ensures JoinTest(c')(gs[i][..k], gs[i][k])
    {
      assert Grown(JoinTest(c), gs[i]) && JoinTest(c)(gs[i][..k], gs[i][k]);
      GrownSameKey(c, gs[i], k);
      SameVerdict(c, c', gs[i][..k], gs[i][k]);
    }
    forall i | 0 <= i < |gs|
      ensures Grown(JoinTest(c'), gs[i])
    {
      assert Grown(JoinTest(c), gs[i]);
    }
    forall i | 0 < i < |gs|
      ensures !JoinTest(c')(gs[i - 1], gs[i][0])
    {
      assert Grown(JoinTest(c), gs[i - 1]);
      RunSameKey(c, gs[i - 1]);
      SameVerdict(c, c', gs[i - 1], gs[i][0]);
    }
    RunsUnique(JoinTest(c'), s, gs, gs');
  }

  lemma SameVerdict(c: GrouperClause, c': GrouperClause, g: seq<Record>, r: Record)
    requires PlainKeys(c) && PlainKeys(c') && SameFields(c, c') && g != [] && SameKey(c, g)
    ensures ClauseJoins(c, g, r) <==> ClauseJoins(c', g, r)
  {
    forall a | 0 <= a < |g|
      ensures Key(c', g[a]) == Key(c, g[a])
    {
      KeyOfSameFields(c, c', g[a]);
    }
    KeyOfSameFields(c, c', r);
    JoinsIffSameKey(c, g, r);
    JoinsIffSameKey(c', g, r);
  }
}
