/** What each field of a cooked record holds, said of the members' bytes alone
    (src/grouper.c). */
module CookedFields {
  import opened Aggregates
  import opened Bits
  import opened Bytes
  import opened Cooked
  import opened Query
  import opened Unions

  predicate SameOrApart(f: Field, g: Field) { f == g || f.Apart(g) }

  /** Every field the query writes into a cooked record is f itself or does not
      overlap it, as with fields from one record layout. */
  predicate Fits(q: BranchQuery, f: Field) {
    && (forall k, j :: 0 <= k < |q.filterClauses| && 0 <= j < |q.filterClauses[k]| ==>
          SameOrApart(q.filterClauses[k][j].field, f))
    && (forall k, j :: 0 <= k < |q.grouperClauses| && 0 <= j < |q.grouperClauses[k]| ==>
          TermFits(q.grouperClauses[k][j], f))
    && (q.aggregate ==> forall k :: 0 <= k < |q.aggrTerms| ==> SameOrApart(q.aggrTerms[k].field, f))
  }

  predicate TermFits(t: GrouperTerm, f: Field) {
    SameOrApart(t.field1, f) && SameOrApart(RightField(t), f)
  }

  /** The right field of a term, in the width the engine writes it. */
  function RightField(t: GrouperTerm): Field {
    Field(t.field2.off, t.field1.w)
  }

  /** No aggregation other than `static` or `union` is asked for on f. */
  predicate NotRecomputed(q: BranchQuery, f: Field) {
    q.aggregate ==> forall k :: 0 <= k < |q.aggrTerms| && q.aggrTerms[k].field == f ==>
      q.aggrTerms[k].op.STATIC? || q.aggrTerms[k].op.UNION?
  }

  /** The cooked record holds in f what the group's first member holds there. */
  ghost predicate HoldsFirst(g: GroupView, f: Field) {
    g.members != [] && Load(g.cooked, f.off, f.w) == Load(g.members[0].bytes, f.off, f.w)
  }

  // ---- writes that agree about a field ----

  predicate Agrees(w: Write, f: Field, v: u64) {
    w.field.Apart(f) || (w.field == f && w.value == v)
  }

  predicate AllAgree(ws: seq<Write>, f: Field, v: u64) {
    forall i :: 0 <= i < |ws| ==> Agrees(ws[i], f, v)
  }

  predicate Hits(ws: seq<Write>, f: Field) {
    exists i :: 0 <= i < |ws| && ws[i].field == f
  }

  lemma {:induction false} AgreeingWrites(b: seq<byte>, ws: seq<Write>, f: Field, v: u64)
    requires WritesInside(ws, |b|) && AllAgree(ws, f, v) && Hits(ws, f)
    ensures LoadField(ApplyWrites(b, ws), f) == v % Pow256(f.w)
  {
    hide LoadField, StoreField;
    var n := |ws| - 1;
    if ws[n].field == f {
      LoadAfterStoreSame(ApplyWrites(b, ws[..n]), f, v);
      assert ws[n].value == v by {
        assert Agrees(ws[n], f, v);
        NotApartFromItself(f);
      }
    } else {
      assert Agrees(ws[n], f, v);
      LoadAfterStoreApart(ApplyWrites(b, ws[..n]), ws[n].field, f, ws[n].value);
      var i :| 0 <= i < |ws| && ws[i].field == f;
      assert ws[..n][i].field == f;
      AgreeingWrites(b, ws[..n], f, v);
    }
  }

  lemma NotApartFromItself(f: Field)
    ensures !f.Apart(f)
  {
  }

  lemma {:induction false} FilterWritesAgree(first: Record, cs: seq<FilterClause>, f: Field)
    requires forall k, j :: 0 <= k < |cs| && 0 <= j < |cs[k]| ==> SameOrApart(cs[k][j].field, f)
    ensures AllAgree(FilterWrites(first, cs), f, Val(first, f))
  {
    if cs != [] {
      FilterWritesAgree(first, cs[..|cs| - 1], f);
    }
  }

  lemma {:induction false} FilterWritesHit(first: Record, cs: seq<FilterClause>, k: nat, j: nat)
    requires k < |cs| && j < |cs[k]|
    ensures Hits(FilterWrites(first, cs), cs[k][j].field)
  {
    hide Val;
    var n, f := |cs| - 1, cs[k][j].field;
    var front, last := FilterWrites(first, cs[..n]), FilterClauseWrites(first, cs[n]);
    if k == n {
      assert last[j].field == f;
      HitsLater(front, last, f);
    } else {
      FilterWritesHit(first, cs[..n], k, j);
      HitsLonger(front, last, f);
    }
  }

  lemma {:induction false} GrouperClauseAgree(first: Record, c: GrouperClause, f: Field)
    requires forall j :: 0 <= j < |c| ==> TermFits(c[j], f)
    ensures AllAgree(GrouperClauseWrites(first, c), f, Val(first, f))
  {
    hide Val;
    if c != [] {
      GrouperClauseAgree(first, c[..|c| - 1], f);
    }
  }

  lemma TermWritesHit(first: Record, t: GrouperTerm)
    ensures Hits(TermWrites(first, t), t.field1) && Hits(TermWrites(first, t), RightField(t))
  {
    hide Val;
    var ws := TermWrites(first, t);
    assert ws[0].field == t.field1 && ws[|ws| - 1].field == RightField(t);
  }

  lemma {:induction false} GrouperClauseHit(first: Record, c: GrouperClause, j: nat, f: Field)
    requires j < |c| && (f == c[j].field1 || f == RightField(c[j]))
    ensures Hits(GrouperClauseWrites(first, c), f)
  {
    hide Hits, TermWrites;
    var n := |c| - 1;
    var front, last := GrouperClauseWrites(first, c[..n]), TermWrites(first, c[n]);
    if j == n {
      TermWritesHit(first, c[n]);
      HitsLater(front, last, f);
    } else {
      GrouperClauseHit(first, c[..n], j, f);
      HitsLonger(front, last, f);
    }
  }

  lemma {:induction false} GrouperWritesHit(first: Record, cs: seq<GrouperClause>, l: nat, j: nat, f: Field)
    requires l < |cs| && j < |cs[l]| && (f == cs[l][j].field1 || f == RightField(cs[l][j]))
    ensures Hits(GrouperWrites(first, cs), f)
  {
    hide Hits, GrouperClauseWrites;
    var n := |cs| - 1;
    var front, last := GrouperWrites(first, cs[..n]), GrouperClauseWrites(first, cs[n]);
    if l == n {
      GrouperClauseHit(first, cs[n], j, f);
      HitsLater(front, last, f);
    } else {
      GrouperWritesHit(first, cs[..n], l, j, f);
      HitsLonger(front, last, f);
    }
  }

  lemma HitsLonger(a: seq<Write>, b: seq<Write>, f: Field)
    requires Hits(a, f)
    ensures Hits(a + b, f)
  {
    var i :| 0 <= i < |a| && a[i].field == f;
    assert (a + b)[i].field == f;
  }

  lemma HitsLater(a: seq<Write>, b: seq<Write>, f: Field)
    requires Hits(b, f)
    ensures Hits(a + b, f)
  {
    var i :| 0 <= i < |b| && b[i].field == f;
    assert (a + b)[|a| + i].field == f;
  }

  lemma {:induction false} GrouperWritesAgree(first: Record, cs: seq<GrouperClause>, f: Field)
    requires forall k, j :: 0 <= k < |cs| && 0 <= j < |cs[k]| ==> TermFits(cs[k][j], f)
    ensures AllAgree(GrouperWrites(first, cs), f, Val(first, f))
  {
    if cs != [] {
      GrouperWritesAgree(first, cs[..|cs| - 1], f);
      GrouperClauseAgree(first, cs[|cs| - 1], f);
    }
  }

  lemma {:induction false} AggrWritesAgree(q: BranchQuery, members: seq<Record>, ts: seq<AggrTerm>,
                                           aggrset: seq<seq<u64>>, f: Field)
    requires AggregatesMean(q, ts, members, aggrset) && Common(q, f.off)
    requires forall k :: 0 <= k < |ts| ==> SameOrApart(ts[k].field, f)
    requires forall k :: 0 <= k < |ts| && ts[k].field == f ==> ts[k].op.STATIC? || ts[k].op.UNION?
    ensures AllAgree(AggrWrites(q, ts, aggrset), f, Val(members[0], f))
  {
    hide Common, Val, UnionMeans, MedianMeans, Sum;
    if ts != [] {
      var n := |ts| - 1;
      AggrWritesAgree(q, members, ts[..n], aggrset[..n], f);
    }
  }

  // ---- fields of filter and grouper terms ----

  /** The group's own writes and the aggregations agree on f, and one of its own
      writes is to f. */
  lemma WritesGiveFirst(io: Io, q: BranchQuery, g: GroupView, f: Field)
    requires Finished(io, q, g) && Fits(q, f) && NotRecomputed(q, f) && Common(q, f.off)
    requires Hits(FilterWrites(g.members[0], q.filterClauses), f)
      || Hits(GrouperWrites(g.members[0], q.grouperClauses), f)
    ensures HoldsFirst(g, f)
  {
    hide Val, TimeHull, Common;
    var first := g.members[0];
    FilterWritesAgree(first, q.filterClauses, f);
    GrouperWritesAgree(first, q.grouperClauses, f);
    AggrWritesAgree(q, g.members, ActiveTerms(q), g.aggrset, f);
    var a, b, c := FilterWrites(first, q.filterClauses), GrouperWrites(first, q.grouperClauses),
      AggrWrites(q, ActiveTerms(q), g.aggrset);
    if Hits(a, f) {
      HitsLonger(a, b, f);
    } else {
      HitsLater(a, b, f);
    }
    HitsLonger(a + b, c, f);
    AgreeingWrites(Zeros(io.recSize), a + b + c, f, Val(first, f));
    ValFits(first, f);
    ValIsLoad(first, f);
  }

  lemma ValIsLoad(r: Record, f: Field)
    ensures Val(r, f) == Load(r.bytes, f.off, f.w)
  {
  }

  lemma ValFits(r: Record, f: Field)
    ensures Val(r, f) % Pow256(f.w) == Val(r, f)
  {
    ModUnique(Val(r, f), Pow256(f.w), 0, Val(r, f));
  }

  /** Every filter term's field of the cooked record holds the first member's
      number, with or without grouper clauses. */
  lemma CookedFilterField(io: Io, q: BranchQuery, g: GroupView, k: nat, j: nat)
    requires Finished(io, q, g) && k < |q.filterClauses| && j < |q.filterClauses[k]|
    requires Fits(q, q.filterClauses[k][j].field) && NotRecomputed(q, q.filterClauses[k][j].field)
    ensures HoldsFirst(g, q.filterClauses[k][j].field)
  {
    hide Finished, Fits, NotRecomputed, Hits;
    var f := q.filterClauses[k][j].field;
    FilterWritesHit(FirstOf(io, q, g), q.filterClauses, k, j);
    assert Common(q, f.off);
    WritesGiveFirst(io, q, g, f);
  }

  ghost function FirstOf(io: Io, q: BranchQuery, g: GroupView): (r: Record)
    requires Finished(io, q, g)
    ensures g.members != [] && r == g.members[0]
  {
    g.members[0]
  }

  /** So do both fields of every grouper term, the right one in the width of the
      left, whether or not they are one field. */
  lemma CookedGrouperFields(io: Io, q: BranchQuery, g: GroupView, l: nat, j: nat, f: Field)
    requires Finished(io, q, g) && l < |q.grouperClauses| && j < |q.grouperClauses[l]|
    requires var t := q.grouperClauses[l][j]; f == t.field1 || f == Field(t.field2.off, t.field1.w)
    requires Fits(q, f) && NotRecomputed(q, f)
    ensures HoldsFirst(g, f)
  {
    hide Finished, Fits, NotRecomputed, Hits;
    GrouperWritesHit(FirstOf(io, q, g), q.grouperClauses, l, j, f);
    assert TermUses(q.grouperClauses[l][j], f.off);
    assert Common(q, f.off);
    WritesGiveFirst(io, q, g, f);
  }

  // ---- aggregated fields ----

  /** The later aggregations leave the k-th one's field alone. */
  predicate LastOn(q: BranchQuery, k: nat)
    requires k < |q.aggrTerms|
  {
    forall i :: k < i < |q.aggrTerms| ==> q.aggrTerms[i].field.Apart(q.aggrTerms[k].field)
  }

  /** What an aggregation other than a union writes. */
  ghost function Written64(q: BranchQuery, t: AggrTerm, values: seq<u64>): u64
    requires values != []
  {
    if t.op.STATIC? && !Common(q, t.field.off) then 0 else values[0]
  }

  lemma {:induction false} AggrWriteAt(q: BranchQuery, members: seq<Record>, ts: seq<AggrTerm>,
                                       aggrset: seq<seq<u64>>, k: nat) returns (p: nat)
    requires AggregatesMean(q, ts, members, aggrset) && k < |ts| && !ts[k].op.UNION?
    requires forall i :: k < i < |ts| ==> ts[i].field.Apart(ts[k].field)
    ensures var ws := AggrWrites(q, ts, aggrset);
      p < |ws| && ws[p] == Write(ts[k].field, Written64(q, ts[k], aggrset[k]))
      && forall i :: p < i < |ws| ==> ws[i].field.Apart(ts[k].field)
  {
    hide AggrMeans, Common;
    var n := |ts| - 1;
    var front := AggrWrites(q, ts[..n], aggrset[..n]);
    if k == n {
      p := |front|;
    } else {
      p := AggrWriteAt(q, members, ts[..n], aggrset[..n], k);
    }
  }

  /** The k-th list of values is what its operator means, and its one value ends
      up in the cooked field, cut to the field's width. */
  lemma CookedValue(io: Io, q: BranchQuery, g: GroupView, k: nat)
    requires Finished(io, q, g) && q.aggregate && k < |q.aggrTerms| && LastOn(q, k)
    ensures var t := q.aggrTerms[k];
      && |g.aggrset| == |q.aggrTerms| && g.aggrset[k] != [] && g.members != []
      && AggrMeans(t.op, Vals(g.members, t.field), Common(q, t.field.off), g.aggrset[k])
      && (!t.op.UNION? ==>
            Load(g.cooked, t.field.off, t.field.w) == Written64(q, t, g.aggrset[k]) % Pow256(t.field.w))
  {
    hide Val, TimeHull, AggrMeans, AggrWrite, Common;
    var first, ts := g.members[0], q.aggrTerms;
    var f := ts[k].field;
    if !ts[k].op.UNION? {
      var p := AggrWriteAt(q, g.members, ts, g.aggrset, k);
      var a, c := FilterWrites(first, q.filterClauses) + GrouperWrites(first, q.grouperClauses),
        AggrWrites(q, ts, g.aggrset);
      assert AllWrites(q, first, g.aggrset) == a + c;
      LastWriteWins(Zeros(io.recSize), a + c, f, |a| + p);
    }
  }

  /** `count`: the number of members, as far as it fits the field. */
  lemma CookedCount(io: Io, q: BranchQuery, g: GroupView, k: nat)
    requires Finished(io, q, g) && q.aggregate && k < |q.aggrTerms| && LastOn(q, k)
    requires q.aggrTerms[k].op == COUNT && |g.members| < TWO_64
    ensures var f := q.aggrTerms[k].field; Load(g.cooked, f.off, f.w) == |g.members| % Pow256(f.w)
  {
    hide Finished, Common, Load;
    CookedValue(io, q, g, k);
    ModUnique(|g.members|, TWO_64, 0, |g.members|);
  }

  /** `sum`: the true sum of the members, modulo what the field can hold. */
  lemma CookedSum(io: Io, q: BranchQuery, g: GroupView, k: nat)
    requires Finished(io, q, g) && q.aggregate && k < |q.aggrTerms| && LastOn(q, k)
    requires q.aggrTerms[k].op == SUM
    ensures var f := q.aggrTerms[k].field;
      Load(g.cooked, f.off, f.w) == Sum(Vals(g.members, f)) % Pow256(f.w)
  {
    hide Finished, Common, Load, Sum;
    var f := q.aggrTerms[k].field;
    CookedValue(io, q, g, k);
    NarrowFieldOfSum(Vals(g.members, f), f.w);
  }

  /** `mean` of a field of at most 32 bits: the exact floor of the mean, uncut. */
  lemma CookedMean(io: Io, q: BranchQuery, g: GroupView, k: nat)
    requires Finished(io, q, g) && q.aggregate && k < |q.aggrTerms| && LastOn(q, k)
    requires q.aggrTerms[k].op == MEAN && q.aggrTerms[k].field.w != 8 && |g.members| < TWO_32
    ensures var f := q.aggrTerms[k].field;
      var m := Load(g.cooked, f.off, f.w);
      m * |g.members| <= Sum(Vals(g.members, f)) < (m + 1) * |g.members|
  {
    hide Finished, Common, Sum;
    var f := q.aggrTerms[k].field;
    CookedValue(io, q, g, k);
    var vs, m := Vals(g.members, f), g.aggrset[k][0];
    NarrowFieldIsSmall(g.members, f);
    ValsFit(g.members, f);
    NarrowMeanExact(vs, 0, Pow256(f.w) - 1, m);
    ModUnique(m, Pow256(f.w), 0, m);
  }

  lemma ValsFit(members: seq<Record>, f: Field)
    ensures forall i :: 0 <= i < |members| ==> 0 <= Vals(members, f)[i] <= Pow256(f.w) - 1
  {
  }

  /** `median` of a field of at most 32 bits: a member's number, with at most half
      of them below and more than half at or below it. */
  lemma CookedMedian(io: Io, q: BranchQuery, g: GroupView, k: nat)
    requires Finished(io, q, g) && q.aggregate && k < |q.aggrTerms| && LastOn(q, k)
    requires q.aggrTerms[k].op == MEDIAN && q.aggrTerms[k].field.w != 8
    ensures var f := q.aggrTerms[k].field;
      var m := Load(g.cooked, f.off, f.w);
      m < TWO_64 && m in Vals(g.members, f) && Halves(Vals(g.members, f), m)
  {
    hide Finished, Common;
    var f := q.aggrTerms[k].field;
    CookedValue(io, q, g, k);
    var vs, m := Vals(g.members, f), g.aggrset[k][0];
    NarrowFieldIsSmall(g.members, f);
    MedianSplits(vs, m);
    ValsFit(g.members, f);
    ModUnique(m, Pow256(f.w), 0, m);
  }

  /** `or` and `xor`: exactly the fold of the members, nothing of it cut off. */
  lemma CookedBits(io: Io, q: BranchQuery, g: GroupView, k: nat)
    requires Finished(io, q, g) && q.aggregate && k < |q.aggrTerms| && LastOn(q, k)
    requires q.aggrTerms[k].op == OR || q.aggrTerms[k].op == XOR
    ensures var t := q.aggrTerms[k];
      BitsMean(t.op == XOR, Vals(g.members, t.field), Load(g.cooked, t.field.off, t.field.w))
  {
    hide Finished, Common, BitsMean;
    var t := q.aggrTerms[k];
    CookedValue(io, q, g, k);
    var vs, x := Vals(g.members, t.field), g.aggrset[k][0];
    FoldFits(t.op.XOR?, vs, x, t.field.w);
    ModUnique(x, Pow256(t.field.w), 0, x);
  }

  /** `static`: the first member's number when a filter or grouper term uses the
      offset as well, otherwise zero. */
  lemma CookedStatic(io: Io, q: BranchQuery, g: GroupView, k: nat)
    requires Finished(io, q, g) && q.aggregate && k < |q.aggrTerms| && LastOn(q, k)
    requires q.aggrTerms[k].op == STATIC
    ensures var f := q.aggrTerms[k].field;
      if OffsetUsed(q, f.off) then HoldsFirst(g, f) else Load(g.cooked, f.off, f.w) == 0
  {
    hide Finished, Load;
    var f := q.aggrTerms[k].field;
    CookedValue(io, q, g, k);
    ValFits(g.members[0], f);
    ValIsLoad(g.members[0], f);
    ModUnique(0, Pow256(f.w), 0, 0);
    UsedIsCommon(q, f.off);
  }

  /** Some filter or grouper term has the offset. */
  ghost predicate OffsetUsed(q: BranchQuery, off: nat) {
    || (exists c, t :: c in q.filterClauses && t in c && t.field.off == off)
    || (exists c, t :: c in q.grouperClauses && t in c && (t.field1.off == off || t.field2.off == off))
  }

  lemma UsedIsCommon(q: BranchQuery, off: nat)
    ensures OffsetUsed(q, off) <==> Common(q, off)
  {
    if k, j :| 0 <= k < |q.filterClauses| && 0 <= j < |q.filterClauses[k]| && q.filterClauses[k][j].field.off == off {
      assert q.filterClauses[k] in q.filterClauses && q.filterClauses[k][j] in q.filterClauses[k];
    }
    if k, j :| 0 <= k < |q.grouperClauses| && 0 <= j < |q.grouperClauses[k]| && TermUses(q.grouperClauses[k][j], off) {
      assert q.grouperClauses[k] in q.grouperClauses && q.grouperClauses[k][j] in q.grouperClauses[k];
    }
    if c, t :| c in q.grouperClauses && t in c && (t.field1.off == off || t.field2.off == off) {
      assert TermUses(t, off);
    }
  }

  // ---- everything else ----

  /** No term writes to a byte of f; unions never write. */
  predicate Unmentioned(q: BranchQuery, f: Field) {
    && (forall k, j :: 0 <= k < |q.filterClauses| && 0 <= j < |q.filterClauses[k]| ==>
          q.filterClauses[k][j].field.Apart(f))
    && (forall k, j :: 0 <= k < |q.grouperClauses| && 0 <= j < |q.grouperClauses[k]| ==>
          q.grouperClauses[k][j].field1.Apart(f) && RightField(q.grouperClauses[k][j]).Apart(f))
    && (q.aggregate ==> forall k :: 0 <= k < |q.aggrTerms| && !q.aggrTerms[k].op.UNION? ==>
          q.aggrTerms[k].field.Apart(f))
  }

  /** A field no term writes to is zero. */
  lemma CookedUntouched(io: Io, q: BranchQuery, g: GroupView, f: Field)
    requires Finished(io, q, g) && Unmentioned(q, f)
    ensures Load(g.cooked, f.off, f.w) == 0
  {
    hide TimeHull, AggrMeans, Common, Val;
    var first := g.members[0];
    FilterWritesApart(first, q.filterClauses, f);
    GrouperWritesApart(first, q.grouperClauses, f);
    AggrWritesApart(q, ActiveTerms(q), g.aggrset, f);
    ApartWrites(Zeros(io.recSize), AllWrites(q, first, g.aggrset), f);
    ZeroLoad(io.recSize, f.off, f.w);
  }

  predicate AllApart(ws: seq<Write>, f: Field) {
    forall i :: 0 <= i < |ws| ==> ws[i].field.Apart(f)
  }

  lemma {:induction false} ApartWrites(b: seq<byte>, ws: seq<Write>, f: Field)
    requires WritesInside(ws, |b|) && AllApart(ws, f)
    ensures LoadField(ApplyWrites(b, ws), f) == LoadField(b, f)
  {
    if ws != [] {
      var n := |ws| - 1;
      LoadAfterStoreApart(ApplyWrites(b, ws[..n]), ws[n].field, f, ws[n].value);
      ApartWrites(b, ws[..n], f);
    }
  }

  lemma {:induction false} ZeroLoad(size: nat, off: nat, w: nat)
    ensures Load(Zeros(size), off, w) == 0
    decreases w
  {
    if w > 0 {
      ZeroLoad(size, off + 1, w - 1);
    }
  }

  lemma {:induction false} FilterWritesApart(first: Record, cs: seq<FilterClause>, f: Field)
    requires forall k, j :: 0 <= k < |cs| && 0 <= j < |cs[k]| ==> cs[k][j].field.Apart(f)
    ensures AllApart(FilterWrites(first, cs), f)
  {
    if cs != [] {
      FilterWritesApart(first, cs[..|cs| - 1], f);
    }
  }

  lemma {:induction false} GrouperClauseApart(first: Record, c: GrouperClause, f: Field)
    requires forall j :: 0 <= j < |c| ==> c[j].field1.Apart(f) && RightField(c[j]).Apart(f)
    ensures AllApart(GrouperClauseWrites(first, c), f)
  {
    if c != [] {
      GrouperClauseApart(first, c[..|c| - 1], f);
    }
  }

  lemma {:induction false} GrouperWritesApart(first: Record, cs: seq<GrouperClause>, f: Field)
    requires forall k, j :: 0 <= k < |cs| && 0 <= j < |cs[k]| ==>
      cs[k][j].field1.Apart(f) && RightField(cs[k][j]).Apart(f)
    ensures AllApart(GrouperWrites(first, cs), f)
  {
    if cs != [] {
      GrouperWritesApart(first, cs[..|cs| - 1], f);
      GrouperClauseApart(first, cs[|cs| - 1], f);
    }
  }

  lemma {:induction false} AggrWritesApart(q: BranchQuery, ts: seq<AggrTerm>, aggrset: seq<seq<u64>>, f: Field)
    requires |ts| == |aggrset| && AllNonEmpty(aggrset)
    requires forall k :: 0 <= k < |ts| && !ts[k].op.UNION? ==> ts[k].field.Apart(f)
    ensures AllApart(AggrWrites(q, ts, aggrset), f)
  {
    hide Common;
    if ts != [] {
      var n := |ts| - 1;
      AggrWritesApart(q, ts[..n], aggrset[..n], f);
    }
  }
}
