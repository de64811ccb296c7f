/** A group under construction and the cooked record it ends up with
    (src/grouper.c). */
module Cooked {
  import opened Aggregates
  import opened Bytes
  import opened Query

  /** What the input format fixes: the record length and where a record keeps
      its start and end timestamps. */
  datatype Io = Io(recSize: nat, firstOff: nat, lastOff: nat)

  datatype BranchQuery = BranchQuery(
    filterClauses: seq<FilterClause>,
    grouperClauses: seq<GrouperClause>,
    aggregate: bool,
    aggrTerms: seq<AggrTerm>,
    groupFilterClauses: seq<FilterClause>)

  function StartTS(io: Io, r: Record): u64 { Val(r, Field(io.firstOff, 8)) }

  function EndTS(io: Io, r: Record): u64 { Val(r, Field(io.lastOff, 8)) }

  function MinStart(io: Io, s: seq<Record>): u64
    requires s != []
  {
    var n := |s| - 1;
    if n == 0 then StartTS(io, s[0]) else Lower(MinStart(io, s[..n]), StartTS(io, s[n]))
  }

  function MaxEnd(io: Io, s: seq<Record>): u64
    requires s != []
  {
    var n := |s| - 1;
    if n == 0 then EndTS(io, s[0]) else Higher(MaxEnd(io, s[..n]), EndTS(io, s[n]))
  }

  function Lower(x: u64, y: u64): u64 { if y < x then y else x }

  function Higher(x: u64, y: u64): u64 { if y > x then y else x }

  ghost predicate TimeHull(io: Io, s: seq<Record>, lo: u64, hi: u64) {
    s != [] && lo == MinStart(io, s) && hi == MaxEnd(io, s)
  }

  ghost predicate Earliest(io: Io, s: seq<Record>, lo: u64) {
    (forall r :: r in s ==> lo <= StartTS(io, r)) && (exists r :: r in s && StartTS(io, r) == lo)
  }

  ghost predicate Latest(io: Io, s: seq<Record>, hi: u64) {
    (forall r :: r in s ==> EndTS(io, r) <= hi) && (exists r :: r in s && EndTS(io, r) == hi)
  }

  /** The time span kept for a group reaches from the earliest start to the
      latest end of its members. */
  lemma TimeHullMeans(io: Io, s: seq<Record>, lo: u64, hi: u64)
    requires s != []
    ensures TimeHull(io, s, lo, hi) <==> Earliest(io, s, lo) && Latest(io, s, hi)
  {
    MinStartMeans(io, s);
    MaxEndMeans(io, s);
  }

  lemma {:induction false} MinStartMeans(io: Io, s: seq<Record>)
    requires s != []
    ensures Earliest(io, s, MinStart(io, s))
  {
    hide Val;
    var n := |s| - 1;
    assert s == s[..n] + [s[n]] && s[n] in s;
    if n > 0 {
      MinStartMeans(io, s[..n]);
      var x :| x in s[..n] && StartTS(io, x) == MinStart(io, s[..n]);
      assert x in s;
    }
  }

  lemma {:induction false} MaxEndMeans(io: Io, s: seq<Record>)
    requires s != []
    ensures Latest(io, s, MaxEnd(io, s))
  {
    hide Val;
    var n := |s| - 1;
    assert s == s[..n] + [s[n]] && s[n] in s;
    if n > 0 {
      MaxEndMeans(io, s[..n]);
      var x :| x in s[..n] && EndTS(io, x) == MaxEnd(io, s[..n]);
      assert x in s;
    }
  }

  lemma HullGrows(io: Io, s: seq<Record>, r: Record)
    requires s != []
    ensures MinStart(io, s + [r]) == Lower(MinStart(io, s), StartTS(io, r))
    ensures MaxEnd(io, s + [r]) == Higher(MaxEnd(io, s), EndTS(io, r))
  {
    assert (s + [r])[..|s|] == s;
  }

  // ---- the writes that make a cooked record ----

  datatype Write = Write(field: Field, value: u64)

  predicate WritesInside(ws: seq<Write>, size: nat) {
    forall i :: 0 <= i < |ws| ==> ws[i].field.Inside(size)
  }

  function ApplyWrites(b: seq<byte>, ws: seq<Write>): (b': seq<byte>)
    requires WritesInside(ws, |b|)
    ensures |b'| == |b|
  {
    if ws == [] then b
    else StoreField(ApplyWrites(b, ws[..|ws| - 1]), ws[|ws| - 1].field, ws[|ws| - 1].value)
  }

  lemma ApplySnoc(b: seq<byte>, ws: seq<Write>, w: Write)
    requires WritesInside(ws, |b|) && w.field.Inside(|b|)
    ensures WritesInside(ws + [w], |b|)
    ensures ApplyWrites(b, ws + [w]) == StoreField(ApplyWrites(b, ws), w.field, w.value)
  {
    assert (ws + [w])[..|ws|] == ws;
  }

  function Zeros(size: nat): (b: seq<byte>)
    ensures |b| == size
  {
    seq(size, i => 0)
  }

  /** `aggr_static` with the common flag: the first member's value. */
  function StaticWrite(first: Record, f: Field): Write {
    Write(f, Val(first, f))
  }

  function FilterClauseWrites(first: Record, c: FilterClause): (ws: seq<Write>)
    ensures |ws| == |c|
  {
    seq(|c|, i requires 0 <= i < |c| => StaticWrite(first, c[i].field))
  }

  function FilterWrites(first: Record, cs: seq<FilterClause>): seq<Write> {
    if cs == [] then [] else FilterWrites(first, cs[..|cs| - 1]) + FilterClauseWrites(first, cs[|cs| - 1])
  }

  /** Both fields of a grouper term, in the width of the left one. */
  function TermWrites(first: Record, t: GrouperTerm): seq<Write> {
    (if t.field1.off != t.field2.off then [StaticWrite(first, t.field1)] else [])
    + [StaticWrite(first, Field(t.field2.off, t.field1.w))]
  }

  function GrouperClauseWrites(first: Record, c: GrouperClause): seq<Write> {
    if c == [] then [] else GrouperClauseWrites(first, c[..|c| - 1]) + TermWrites(first, c[|c| - 1])
  }

  function GrouperWrites(first: Record, cs: seq<GrouperClause>): seq<Write> {
    if cs == [] then [] else GrouperWrites(first, cs[..|cs| - 1]) + GrouperClauseWrites(first, cs[|cs| - 1])
  }

  /** Whether one of the first n filter clauses uses the offset. */
  predicate FilterUses(q: BranchQuery, n: nat, off: nat)
    requires n <= |q.filterClauses|
  {
    exists k, j :: 0 <= k < n && 0 <= j < |q.filterClauses[k]| && q.filterClauses[k][j].field.off == off
  }

  predicate GrouperUses(q: BranchQuery, n: nat, off: nat)
    requires n <= |q.grouperClauses|
  {
    exists k, j :: 0 <= k < n && 0 <= j < |q.grouperClauses[k]| && TermUses(q.grouperClauses[k][j], off)
  }

  predicate TermUses(t: GrouperTerm, off: nat) {
    t.field1.off == off || t.field2.off == off
  }

  /** Whether a filter or grouper term already uses the offset. */
  predicate Common(q: BranchQuery, off: nat) {
    FilterUses(q, |q.filterClauses|, off) || GrouperUses(q, |q.grouperClauses|, off)
  }

  function AggrWrite(q: BranchQuery, t: AggrTerm, values: seq<u64>): seq<Write>
    requires values != []
  {
    match t.op
    case STATIC => [Write(t.field, if Common(q, t.field.off) then values[0] else 0)]
    case UNION => []
    case _ => [Write(t.field, values[0])]
  }

  predicate AllNonEmpty(aggrset: seq<seq<u64>>) {
    forall k :: 0 <= k < |aggrset| ==> aggrset[k] != []
  }

  function AggrWrites(q: BranchQuery, ts: seq<AggrTerm>, aggrset: seq<seq<u64>>): seq<Write>
    requires |ts| == |aggrset| && AllNonEmpty(aggrset)
  {
    if ts == [] then [] else
      var n := |ts| - 1;
      AggrWrites(q, ts[..n], aggrset[..n]) + AggrWrite(q, ts[n], aggrset[n])
  }

  /** All fields a query touches lie inside the record. */
  predicate InBounds(io: Io, q: BranchQuery) {
    && (forall k, j :: 0 <= k < |q.filterClauses| && 0 <= j < |q.filterClauses[k]| ==>
          q.filterClauses[k][j].field.Inside(io.recSize))
    && (forall k, j :: 0 <= k < |q.grouperClauses| && 0 <= j < |q.grouperClauses[k]| ==>
          TermInside(q.grouperClauses[k][j], io.recSize))
    && (forall k :: 0 <= k < |q.aggrTerms| ==> q.aggrTerms[k].field.Inside(io.recSize))
  }

  predicate TermInside(t: GrouperTerm, size: nat) {
    t.field1.Inside(size) && t.field2.Inside(size) && Field(t.field2.off, t.field1.w).Inside(size)
  }

  /** `rec` is a zeroed record after the writes `ws`. */
  ghost predicate Written(rec: seq<byte>, size: nat, ws: seq<Write>) {
    WritesInside(ws, size) && rec == ApplyWrites(Zeros(size), ws)
  }

  /** The aggregation terms, none when the stage is switched off. */
  function ActiveTerms(q: BranchQuery): seq<AggrTerm> {
    if q.aggregate then q.aggrTerms else []
  }

  /** Each aggregation term's values are what its operator means. */
  ghost predicate AggregatesMean(q: BranchQuery, ts: seq<AggrTerm>, members: seq<Record>, aggrset: seq<seq<u64>>) {
    && members != [] && |aggrset| == |ts| && AllNonEmpty(aggrset)
    && forall k :: 0 <= k < |ts| ==>
      AggrMeans(ts[k].op, Vals(members, ts[k].field), Common(q, ts[k].field.off), aggrset[k])
  }

  function AllWrites(q: BranchQuery, first: Record, aggrset: seq<seq<u64>>): seq<Write>
    requires |ActiveTerms(q)| == |aggrset| && AllNonEmpty(aggrset)
  {
    FilterWrites(first, q.filterClauses)
    + GrouperWrites(first, q.grouperClauses)
    + AggrWrites(q, ActiveTerms(q), aggrset)
  }

  lemma NoWrites(size: nat)
    ensures Written(Zeros(size), size, [])
  {
  }

  /** What the grouper promises about a finished group. */
  ghost predicate Finished(io: Io, q: BranchQuery, g: GroupView) {
    && TimeHull(io, g.members, g.startTs, g.endTs)
    && AggregatesMean(q, ActiveTerms(q), g.members, g.aggrset)
    && Written(g.cooked, io.recSize, AllWrites(q, g.members[0], g.aggrset))
  }

  lemma AggrMeansSome(op: AggrOp, vs: seq<u64>, common: bool, values: seq<u64>)
    requires vs != [] && AggrMeans(op, vs, common, values)
    ensures values != []
  {
    assert vs[0] in vs;
  }

  /** A finished group's span, said of the members' bytes: no member starts
      before it or ends after it, and some member starts and some ends with it. */
  lemma GroupSpan(io: Io, q: BranchQuery, g: GroupView)
    requires Finished(io, q, g)
    ensures forall r :: r in g.members ==>
      g.startTs <= Load(r.bytes, io.firstOff, 8) && Load(r.bytes, io.lastOff, 8) <= g.endTs
    ensures exists r :: r in g.members && Load(r.bytes, io.firstOff, 8) == g.startTs
    ensures exists r :: r in g.members && Load(r.bytes, io.lastOff, 8) == g.endTs
  {
    hide AggregatesMean, Written;
    TimeHullMeans(io, g.members, g.startTs, g.endTs);
    assert forall r: Record :: StartTS(io, r) == Load(r.bytes, io.firstOff, 8);
    assert forall r: Record :: EndTS(io, r) == Load(r.bytes, io.lastOff, 8);
  }

  // ---- every group can be finished ----

  lemma {:induction false} FilterWritesInside(first: Record, cs: seq<FilterClause>, size: nat)
    requires forall k, j :: 0 <= k < |cs| && 0 <= j < |cs[k]| ==> cs[k][j].field.Inside(size)
    ensures WritesInside(FilterWrites(first, cs), size)
  {
    if cs != [] {
      FilterWritesInside(first, cs[..|cs| - 1], size);
    }
  }

  lemma {:induction false} GrouperClauseInside(first: Record, c: GrouperClause, size: nat)
    requires forall j :: 0 <= j < |c| ==> TermInside(c[j], size)
    ensures WritesInside(GrouperClauseWrites(first, c), size)
  {
    if c != [] {
      GrouperClauseInside(first, c[..|c| - 1], size);
    }
  }

  lemma {:induction false} GrouperWritesInside(first: Record, cs: seq<GrouperClause>, size: nat)
    requires forall k, j :: 0 <= k < |cs| && 0 <= j < |cs[k]| ==> TermInside(cs[k][j], size)
    ensures WritesInside(GrouperWrites(first, cs), size)
  {
    if cs != [] {
      GrouperWritesInside(first, cs[..|cs| - 1], size);
      GrouperClauseInside(first, cs[|cs| - 1], size);
    }
  }

  lemma {:induction false} AggrWritesInside(q: BranchQuery, ts: seq<AggrTerm>, aggrset: seq<seq<u64>>, size: nat)
    requires |ts| == |aggrset| && AllNonEmpty(aggrset)
    requires forall k :: 0 <= k < |ts| ==> ts[k].field.Inside(size)
    ensures WritesInside(AggrWrites(q, ts, aggrset), size)
  {
    hide Common;
    if ts != [] {
      var n := |ts| - 1;
      AggrWritesInside(q, ts[..n], aggrset[..n], size);
    }
  }

  lemma {:induction false} AggregatesExist(q: BranchQuery, ts: seq<AggrTerm>, members: seq<Record>)
    returns (aggrset: seq<seq<u64>>)
    requires members != []
    ensures AggregatesMean(q, ts, members, aggrset)
  {
    hide AggrMeans, Common;
    if ts == [] {
      aggrset := [];
    } else {
      var n := |ts| - 1;
      var front := AggregatesExist(q, ts[..n], members);
      var vs, common := Vals(members, ts[n].field), Common(q, ts[n].field.off);
      var values := AggregateExists(ts[n].op, vs, common);
      AggrMeansSome(ts[n].op, vs, common, values);
      aggrset := front + [values];
    }
  }

  /** A query whose fields lie inside the record has a finished group for any
      members. */
  lemma FinishExists(io: Io, q: BranchQuery, members: seq<Record>) returns (g: GroupView)
    requires members != [] && InBounds(io, q)
    ensures Finished(io, q, g) && g.members == members
  {
    hide AggregatesMean, MinStart, MaxEnd;
    var aggrset := AggregatesExist(q, ActiveTerms(q), members);
    AggregatesShape(q, ActiveTerms(q), members, aggrset);
    FilterWritesInside(members[0], q.filterClauses, io.recSize);
    GrouperWritesInside(members[0], q.grouperClauses, io.recSize);
    AggrWritesInside(q, ActiveTerms(q), aggrset, io.recSize);
    var cooked := ApplyWrites(Zeros(io.recSize), AllWrites(q, members[0], aggrset));
    g := GroupView(members, MinStart(io, members), MaxEnd(io, members), cooked, aggrset);
  }

  lemma AggregatesShape(q: BranchQuery, ts: seq<AggrTerm>, members: seq<Record>, aggrset: seq<seq<u64>>)
    requires AggregatesMean(q, ts, members, aggrset)
    ensures |aggrset| == |ts| && AllNonEmpty(aggrset)
  {
  }

  // ---- the group object ----

  class Group {
    var members: seq<Record>
    var startTs: u64
    var endTs: u64
    var aggrRecord: seq<byte>
    var aggrset: seq<seq<u64>>

    function View(): GroupView
      reads this
    {
      GroupView(members, startTs, endTs, aggrRecord, aggrset)
    }

    /** A group of one: a zeroed cooked record and the first member. */
    constructor (io: Io, first: Record)
      ensures members == [first] && TimeHull(io, members, startTs, endTs)
      ensures aggrRecord == Zeros(io.recSize) && aggrset == []
    {
      members := [first];
      startTs, endTs := StartTS(io, first), EndTS(io, first);
      aggrRecord, aggrset := Zeros(io.recSize), [];
    }

    /** One more member; the time span grows with it. */
    method Add(io: Io, r: Record)
      requires TimeHull(io, members, startTs, endTs)
      modifies this`members, this`startTs, this`endTs
      ensures members == old(members) + [r] && TimeHull(io, members, startTs, endTs)
    {
      HullGrows(io, members, r);
      members := members + [r];
      var start, end := StartTS(io, r), EndTS(io, r);
      if start < startTs {
        startTs := start;
      }
      if end > endTs {
        endTs := end;
      }
    }

    method Put(w: Write, ghost size: nat, ghost ws: seq<Write>)
      requires w.field.Inside(size) && Written(aggrRecord, size, ws)
      modifies this`aggrRecord
      ensures Written(aggrRecord, size, ws + [w])
    {
      ApplySnoc(Zeros(size), ws, w);
      aggrRecord := StoreField(aggrRecord, w.field, w.value);
    }

    method PutFilterClause(c: FilterClause, ghost size: nat, ghost done: seq<Write>)
      requires members != [] && Written(aggrRecord, size, done)
      requires forall j :: 0 <= j < |c| ==> c[j].field.Inside(size)
      modifies this`aggrRecord
      ensures Written(aggrRecord, size, done + FilterClauseWrites(members[0], c))
    {
      ghost var all := FilterClauseWrites(members[0], c);
      assert done + all[..0] == done;
      for j := 0 to |c|
        invariant Written(aggrRecord, size, done + all[..j])
      {
        Put(StaticWrite(members[0], c[j].field), size, done + all[..j]);
        assert done + all[..j] + [all[j]] == done + all[..j + 1];
      }
      assert all[..|c|] == all;
    }

    /** The fields of the filter terms, common to all members if those ask for
        equality. */
    method PutFilterFields(cs: seq<FilterClause>, ghost size: nat)
      requires members != [] && Written(aggrRecord, size, [])
      requires forall k, j :: 0 <= k < |cs| && 0 <= j < |cs[k]| ==> cs[k][j].field.Inside(size)
      modifies this`aggrRecord
      ensures Written(aggrRecord, size, FilterWrites(members[0], cs))
    {
      for i := 0 to |cs|
        invariant Written(aggrRecord, size, FilterWrites(members[0], cs[..i]))
      {
        PutFilterClause(cs[i], size, FilterWrites(members[0], cs[..i]));
        assert cs[..i + 1][..i] == cs[..i];
      }
      assert cs[..|cs|] == cs;
    }

    method PutTerm(t: GrouperTerm, ghost size: nat, ghost done: seq<Write>)
      requires members != [] && TermInside(t, size) && Written(aggrRecord, size, done)
      modifies this`aggrRecord
      ensures Written(aggrRecord, size, done + TermWrites(members[0], t))
    {
      ghost var ws := done;
      if t.field1.off != t.field2.off {
        Put(StaticWrite(members[0], t.field1), size, ws);
        ws := ws + [StaticWrite(members[0], t.field1)];
      }
      Put(StaticWrite(members[0], Field(t.field2.off, t.field1.w)), size, ws);
      assert ws + [StaticWrite(members[0], Field(t.field2.off, t.field1.w))] == done + TermWrites(members[0], t);
    }

    method PutGrouperClause(c: GrouperClause, ghost size: nat, ghost done: seq<Write>)
      requires members != [] && Written(aggrRecord, size, done)
      requires forall j :: 0 <= j < |c| ==> TermInside(c[j], size)
      modifies this`aggrRecord
      ensures Written(aggrRecord, size, done + GrouperClauseWrites(members[0], c))
    {
      assert done + [] == done;
      for j := 0 to |c|
        invariant Written(aggrRecord, size, done + GrouperClauseWrites(members[0], c[..j]))
      {
        PutTerm(c[j], size, done + GrouperClauseWrites(members[0], c[..j]));
        GrouperClauseSnoc(members[0], c, j, done);
      }
      assert c[..|c|] == c;
    }

    /** The fields of the grouper terms, on top of the writes `done`. */
    method PutGrouperFields(cs: seq<GrouperClause>, ghost size: nat, ghost done: seq<Write>)
      requires members != [] && Written(aggrRecord, size, done)
      requires forall k, j :: 0 <= k < |cs| && 0 <= j < |cs[k]| ==> TermInside(cs[k][j], size)
      modifies this`aggrRecord
      ensures Written(aggrRecord, size, done + GrouperWrites(members[0], cs))
    {
      assert done + [] == done;
      for i := 0 to |cs|
        invariant Written(aggrRecord, size, done + GrouperWrites(members[0], cs[..i]))
      {
        PutGrouperClause(cs[i], size, done + GrouperWrites(members[0], cs[..i]));
        GrouperSnoc(members[0], cs, i, done);
      }
      assert cs[..|cs|] == cs;
    }

    method PutAggregation(q: BranchQuery, t: AggrTerm, ghost size: nat, ghost done: seq<Write>)
      returns (values: seq<u64>)
      requires members != [] && t.field.Inside(size) && Written(aggrRecord, size, done)
      modifies this`aggrRecord
      ensures values != [] && AggrMeans(t.op, Vals(members, t.field), Common(q, t.field.off), values)
      ensures Written(aggrRecord, size, done + AggrWrite(q, t, values))
    {
      var ifIgnore := IfIgnore(q, t.field.off);
      values := Aggregate(t.op, members, t.field, ifIgnore);
      AggrMeansSome(t.op, Vals(members, t.field), ifIgnore, values);
      if t.op.STATIC? {
        Put(Write(t.field, if ifIgnore then values[0] else 0), size, done);
      } else if !t.op.UNION? {
        Put(Write(t.field, values[0]), size, done);
      } else {
        assert done + [] == done;
      }
    }

    /** `grouper_aggregations`. */
    method PutAggregations(q: BranchQuery, ghost size: nat, ghost done: seq<Write>)
      requires members != [] && aggrset == [] && Written(aggrRecord, size, done)
      requires forall k :: 0 <= k < |q.aggrTerms| ==> q.aggrTerms[k].field.Inside(size)
      modifies this`aggrRecord, this`aggrset
      ensures AggregatesMean(q, q.aggrTerms, members, aggrset)
      ensures Written(aggrRecord, size, done + AggrWrites(q, q.aggrTerms, aggrset))
    {
      assert done + [] == done;
      for k := 0 to |q.aggrTerms|
        invariant AggregatesMean(q, q.aggrTerms[..k], members, aggrset)
        invariant Written(aggrRecord, size, done + AggrWrites(q, q.aggrTerms[..k], aggrset))
      {
        var values := PutAggregation(q, q.aggrTerms[k], size, done + AggrWrites(q, q.aggrTerms[..k], aggrset));
        AggregationsSnoc(q, q.aggrTerms, k, members, aggrset, values, done);
        aggrset := aggrset + [values];
      }
      assert q.aggrTerms[..|q.aggrTerms|] == q.aggrTerms;
    }

    /** Everything after the scan: common fields, then aggregations. */
    method Finish(io: Io, q: BranchQuery)
      requires TimeHull(io, members, startTs, endTs) && InBounds(io, q)
      requires aggrRecord == Zeros(io.recSize) && aggrset == []
      modifies this`aggrRecord, this`aggrset
      ensures Finished(io, q, View())
    {
      hide MinStart, MaxEnd, ApplyWrites;
      NoWrites(io.recSize);
      ghost var size, first := io.recSize, members[0];
      PutFilterFields(q.filterClauses, size);
      PutGrouperFields(q.grouperClauses, size, FilterWrites(first, q.filterClauses));
      ghost var done := FilterWrites(first, q.filterClauses) + GrouperWrites(first, q.grouperClauses);
      if q.aggregate {
        PutAggregations(q, size, done);
      } else {
        assert done + [] == done;
      }
      assert Written(aggrRecord, size, AllWrites(q, first, aggrset));
    }
  }

  lemma GrouperClauseSnoc(first: Record, c: GrouperClause, j: nat, done: seq<Write>)
    requires j < |c|
    ensures done + GrouperClauseWrites(first, c[..j + 1])
            == done + GrouperClauseWrites(first, c[..j]) + TermWrites(first, c[j])
  {
    assert c[..j + 1][..j] == c[..j];
  }

  lemma GrouperSnoc(first: Record, cs: seq<GrouperClause>, i: nat, done: seq<Write>)
    requires i < |cs|
    ensures done + GrouperWrites(first, cs[..i + 1])
            == done + GrouperWrites(first, cs[..i]) + GrouperClauseWrites(first, cs[i])
  {
    assert cs[..i + 1][..i] == cs[..i];
  }

  lemma AggregationsSnoc(q: BranchQuery, ts: seq<AggrTerm>, k: nat, members: seq<Record>,
                         aggrset: seq<seq<u64>>, values: seq<u64>, done: seq<Write>)
    requires k < |ts| && AggregatesMean(q, ts[..k], members, aggrset) && values != []
    requires AggrMeans(ts[k].op, Vals(members, ts[k].field), Common(q, ts[k].field.off), values)
    ensures AggregatesMean(q, ts[..k + 1], members, aggrset + [values])
    ensures done + AggrWrites(q, ts[..k + 1], aggrset + [values])
            == done + AggrWrites(q, ts[..k], aggrset) + AggrWrite(q, ts[k], values)
  {
    assert ts[..k + 1][..k] == ts[..k] && (aggrset + [values])[..k] == aggrset;
    forall i | 0 <= i < k
      ensures AggrMeans(ts[i].op, Vals(members, ts[i].field), Common(q, ts[i].field.off), aggrset[i])
    {
      assert ts[i] == ts[..k][i];
    }
  }

  /** The two searches at the head of `grouper_aggregations`. */
  method IfIgnore(q: BranchQuery, off: nat) returns (ifIgnore: bool)
    ensures ifIgnore <==> Common(q, off)
  {
    ifIgnore := false;
    for k := 0 to |q.filterClauses|
      invariant ifIgnore <==> FilterUses(q, k, off)
    {
      var c := q.filterClauses[k];
      for j := 0 to |c|
        invariant forall i :: 0 <= i < j ==> c[i].field.off != off
      {
        if c[j].field.off == off {
          ifIgnore := true;
          assert q.filterClauses[k][j].field.off == off;
          break;
        }
      }
    }
    ghost var byFilter := ifIgnore;
    for k := 0 to |q.grouperClauses|
      invariant ifIgnore <==> byFilter || GrouperUses(q, k, off)
    {
      var c := q.grouperClauses[k];
      for j := 0 to |c|
        invariant forall i :: 0 <= i < j ==> !TermUses(c[i], off)
      {
        if TermUses(c[j], off) {
          ifIgnore := true;
          assert TermUses(q.grouperClauses[k][j], off);
          break;
        }
      }
    }
  }

  // ---- meaning ----

  /** The last write to a field that no other write overlaps decides what the
      field reads. */
  lemma {:induction false} LastWriteWins(b: seq<byte>, ws: seq<Write>, f: Field, k: nat)
    requires WritesInside(ws, |b|) && k < |ws| && ws[k].field == f
    requires forall i :: k < i < |ws| ==> ws[i].field.Apart(f)
    ensures LoadField(ApplyWrites(b, ws), f) == ws[k].value % Pow256(f.w)
  {
    var n := |ws| - 1;
    var front := ApplyWrites(b, ws[..n]);
    if k == n {
      LoadAfterStoreSame(front, f, ws[n].value);
    } else {
      LoadAfterStoreApart(front, ws[n].field, f, ws[n].value);
      LastWriteWins(b, ws[..n], f, k);
    }
  }
}
