/** What filters and group filters accept, said of the bytes of a record alone
    (scripts/generate-functions.py, src/f.c, src/groupfilter.c). */
module FilterMeaning {
  import opened Bytes
  import opened Pipeline
  import opened Query
  import opened Seqs
  import opened Trace

  // ---- a single term ----

  /** A record that holds a given number in a given field. */
  lemma RecordWith(f: Field, x: u64) returns (b: seq<byte>)
    requires x < Pow256(f.w)
    ensures Load(b, f.off, f.w) == x
  {
    var zeros: seq<byte> := seq(f.off + f.w, i => 0);
    LoadAfterStore(zeros, f.off, f.w, x);
    ModUnique(x, Pow256(f.w), 0, x);
    b := Store(zeros, f.off, f.w, x);
  }

  /** A filter of one term accepts exactly the records whose number in the field
      stands in the intended relation to the value, widened by the delta, if and
      only if no bound wraps around to where the field can reach. */
  lemma TermAccepts(f: Field, value: u64, delta: u64, op: Cmp)
    ensures (forall b: seq<byte> :: DnfMatches([[FilterTerm(f, value, delta, op)]], b) <==>
                                    CompareIdeal(op, Load(b, f.off, f.w), value, delta))
            <==> Harmless(op, value, delta, FieldTop(f.w))
  {
    var cs := [[FilterTerm(f, value, delta, op)]];
    forall b: seq<byte>
      ensures DnfMatches(cs, b) <==> Compare(op, LoadField(b, f), value, delta)
    {
      OneTerm(cs[0][0], b);
    }
    CompareMeaning(op, value, delta, f.w);
    if !Harmless(op, value, delta, FieldTop(f.w)) {
      var x: u64 :| x < Pow256(f.w) && Compare(op, x, value, delta) != CompareIdeal(op, x, value, delta);
      var b := RecordWith(f, x);
      assert LoadField(b, f) == x;
      assert DnfMatches(cs, b) != CompareIdeal(op, Load(b, f.off, f.w), value, delta);
    } else {
      forall b: seq<byte>
        ensures DnfMatches(cs, b) <==> CompareIdeal(op, Load(b, f.off, f.w), value, delta)
      {
        assert LoadField(b, f) < Pow256(f.w);
      }
    }
  }

  lemma OneTerm(t: FilterTerm, b: seq<byte>)
    ensures DnfMatches([[t]], b) <==> Compare(t.op, LoadField(b, t.field), t.value, t.delta)
  {
    var cs := [[t]];
    assert ClauseMatches(cs[0], b) <==> BytesMatch(cs[0][0], b);
  }

  /** Without a delta the six operators are the six comparisons of the record's
      number with the query's value, in this order. */
  lemma PlainTermAccepts(f: Field, value: u64, op: Cmp, b: seq<byte>)
    ensures var accepted, x := DnfMatches([[FilterTerm(f, value, 0, op)]], b), Load(b, f.off, f.w);
      && (op == EQ ==> (accepted <==> x == value)) && (op == NE ==> (accepted <==> x != value))
      && (op == GT ==> (accepted <==> x > value)) && (op == GE ==> (accepted <==> x >= value))
      && (op == LT ==> (accepted <==> x < value)) && (op == LE ==> (accepted <==> x <= value))
  {
    OneTerm(FilterTerm(f, value, 0, op), b);
  }

  /** With a delta that does not wrap they are the six comparisons widened by it. */
  lemma WidenedTermAccepts(f: Field, value: u64, delta: u64, op: Cmp, b: seq<byte>)
    requires Harmless(op, value, delta, FieldTop(f.w))
    ensures var accepted, x := DnfMatches([[FilterTerm(f, value, delta, op)]], b), Load(b, f.off, f.w);
      && (op == EQ ==> (accepted <==> value - delta <= x <= value + delta))
      && (op == NE ==> (accepted <==> x < value - delta || value + delta < x))
      && (op == GT ==> (accepted <==> x > value - delta)) && (op == GE ==> (accepted <==> x >= value - delta))
      && (op == LT ==> (accepted <==> x < value + delta)) && (op == LE ==> (accepted <==> x <= value + delta))
  {
    hide DnfMatches;
    TermAccepts(f, value, delta, op);
  }

  // ---- clauses and filters ----

  /** Terms of a clause are AND'd. */
  lemma TermsAreAnded(c: FilterClause, d: FilterClause, b: seq<byte>)
    ensures DnfMatches([c + d], b) <==> DnfMatches([c], b) && DnfMatches([d], b)
    ensures DnfMatches([[]], b)
  {
    OneClause(c + d, b);
    OneClause(c, b);
    OneClause(d, b);
    OneClause([], b);
    if DnfMatches([c + d], b) {
      forall j | 0 <= j < |c|
        ensures BytesMatch(c[j], b)
      {
        assert (c + d)[j] == c[j];
      }
      forall j | 0 <= j < |d|
        ensures BytesMatch(d[j], b)
      {
        assert (c + d)[|c| + j] == d[j];
      }
    }
  }

  lemma OneClause(c: FilterClause, b: seq<byte>)
    ensures DnfMatches([c], b) <==> forall j :: 0 <= j < |c| ==> BytesMatch(c[j], b)
  {
    var cs := [c];
    assert ClauseMatches(cs[0], b) <==> forall j :: 0 <= j < |c| ==> BytesMatch(c[j], b);
  }

  /** Clauses are OR'd, and no clause accepts nothing. With `TermsAreAnded` and
      the meaning of a single term this determines every filter. */
  lemma ClausesAreOred(cs: seq<FilterClause>, ds: seq<FilterClause>, b: seq<byte>)
    ensures DnfMatches(cs + ds, b) <==> DnfMatches(cs, b) || DnfMatches(ds, b)
    ensures !DnfMatches([], b)
  {
    hide ClauseMatches;
    if DnfMatches(ds, b) {
      var k :| 0 <= k < |ds| && ClauseMatches(ds[k], b);
      assert (cs + ds)[|cs| + k] == ds[k];
    }
    if DnfMatches(cs, b) {
      var k :| 0 <= k < |cs| && ClauseMatches(cs[k], b);
      assert (cs + ds)[k] == cs[k];
    }
  }

  // ---- at the two places filters are used ----

  /** A branch with a one-term filter receives a trace record iff the number in
      the record stands in the intended relation to the value. */
  lemma BranchFilterMeans(css: seq<seq<FilterClause>>, trace: seq<seq<byte>>, store: seq<Record>,
                          filtereds: seq<seq<Record>>, i: nat, t: FilterTerm, b: seq<byte>)
    requires FannedOut(css, trace, store, filtereds) && i < |css| && css[i] == [[t]]
    requires Harmless(t.op, t.value, t.delta, FieldTop(t.field.w))
    ensures b in BytesOf(filtereds[i]) <==>
      b in trace && CompareIdeal(t.op, Load(b, t.field.off, t.field.w), t.value, t.delta)
  {
    hide FannedOut, DnfMatches;
    BranchReceives(css, trace, store, filtereds, i);
    FilterMembers(trace, AcceptsBytes(css[i]), b);
    TermAccepts(t.field, t.value, t.delta, t.op);
  }

  /** A one-term group filter keeps a group iff the number in its cooked record
      does. */
  lemma GroupFilterMeans(groups: seq<GroupView>, t: FilterTerm, g: GroupView)
    requires Harmless(t.op, t.value, t.delta, FieldTop(t.field.w))
    ensures g in Filter(groups, Passes([[t]])) <==>
      g in groups && CompareIdeal(t.op, Load(g.cooked, t.field.off, t.field.w), t.value, t.delta)
  {
    hide DnfMatches;
    FilterMembers(groups, Passes([[t]]), g);
    TermAccepts(t.field, t.value, t.delta, t.op);
  }
}
