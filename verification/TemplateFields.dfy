/** Fields taken from one template: what the allocator guarantees is what
    comparators and cooked records rely on (src/io-ipfix.c, src/grouper.c). */
module TemplateFields {
  import opened Bytes
  import opened Cooked
  import opened CookedFields
  import opened IpfixTemplate
  import opened Query

  /** The field starts where an element of the template does and does not reach
      beyond it. */
  predicate FromTemplate(t: Templ, f: Field) {
    exists i :: 0 <= i < |t.arr| && t.arr[i].offset == f.off && f.w <= t.arr[i].size
  }

  /** How many bytes a comparator loads of a value of each type. */
  predicate Reads(ty: IeType, w: Width) {
    || (w == 1 && ty == UNSIGNED8)
    || (w == 2 && ty == UNSIGNED16)
    || (w == 4 && ty in {UNSIGNED32, IPV4ADDRESS, DATETIMESECONDS})
    || (w == 8 && ty in {UNSIGNED64, FLOAT64, DATETIMEMILLISECONDS, DATETIMEMICROSECONDS, DATETIMENANOSECONDS})
  }

  /** A comparator that reads an element in the width of its type reads exactly the
      bytes the template gave the element. */
  lemma ReadsWholeElement(types: Types, t: Templ, i: nat, w: Width)
    requires Built(types, t) && i < |t.arr| && Reads(types[NameOf(types, t, i)], w)
    ensures t.arr[i].size == w && FromTemplate(t, Field(t.arr[i].offset, w))
  {
    ElementOctets(types, t, i);
  }

  ghost function NameOf(types: Types, t: Templ, i: nat): (name: string)
    requires Built(types, t) && i < |t.arr|
    ensures name == t.arr[i].name && name in types
  {
    ElementOctets(types, t, i);
    t.arr[i].name
  }

  /** Two fields from one template start together or do not overlap. */
  lemma TemplateFieldsApart(t: Templ, f: Field, g: Field)
    requires Layout(t) && FromTemplate(t, f) && FromTemplate(t, g)
    ensures (f.off == g.off || f.Apart(g)) && f.Inside(RecSize(t.nextOffset))
  {
    hide RecSize;
    var i :| 0 <= i < |t.arr| && t.arr[i].offset == f.off && f.w <= t.arr[i].size;
    var j :| 0 <= j < |t.arr| && t.arr[j].offset == g.off && g.w <= t.arr[j].size;
    assert t.arr[i].End() <= RecSize(t.nextOffset);
    if i < j {
      assert t.arr[i].End() <= t.arr[j].offset;
    } else if j < i {
      assert t.arr[j].End() <= t.arr[i].offset;
    }
  }

  /** All fields the query touches are from the template. */
  predicate AllFromTemplate(t: Templ, q: BranchQuery) {
    && (forall k, j :: 0 <= k < |q.filterClauses| && 0 <= j < |q.filterClauses[k]| ==>
          FromTemplate(t, q.filterClauses[k][j].field))
    && (forall k, j :: 0 <= k < |q.grouperClauses| && 0 <= j < |q.grouperClauses[k]| ==>
          TermFromTemplate(t, q.grouperClauses[k][j]))
    && (forall k :: 0 <= k < |q.aggrTerms| ==> FromTemplate(t, q.aggrTerms[k].field))
  }

  predicate TermFromTemplate(t: Templ, g: GrouperTerm) {
    FromTemplate(t, g.field1) && FromTemplate(t, g.field2) && FromTemplate(t, RightField(g))
  }

  predicate SameWidth(f: Field, g: Field) { f.off == g.off ==> f.w == g.w }

  /** Wherever the query writes at f's offset it does so in f's width. */
  predicate OneWidth(q: BranchQuery, f: Field) {
    && (forall k, j :: 0 <= k < |q.filterClauses| && 0 <= j < |q.filterClauses[k]| ==>
          SameWidth(q.filterClauses[k][j].field, f))
    && (forall k, j :: 0 <= k < |q.grouperClauses| && 0 <= j < |q.grouperClauses[k]| ==>
          SameWidth(q.grouperClauses[k][j].field1, f) && SameWidth(RightField(q.grouperClauses[k][j]), f))
    && (q.aggregate ==> forall k :: 0 <= k < |q.aggrTerms| ==> SameWidth(q.aggrTerms[k].field, f))
  }

  /** A query over template elements stays inside the record, and its writes to
      other elements never reach into f; so f fits the query exactly when all
      writes at its own offset have its width. */
  lemma TemplateFits(t: Templ, io: Io, q: BranchQuery, f: Field)
    requires Layout(t) && io.recSize == RecSize(t.nextOffset)
    requires AllFromTemplate(t, q) && FromTemplate(t, f)
    ensures InBounds(io, q)
    ensures Fits(q, f) <==> OneWidth(q, f)
  {
    hide RecSize, Layout, FromTemplate;
    forall g | FromTemplate(t, g)
      ensures (SameOrApart(g, f) <==> SameWidth(g, f)) && g.Inside(io.recSize)
    {
      TemplateFieldsApart(t, g, f);
      TemplateFieldsApart(t, f, g);
    }
    forall k, j | 0 <= k < |q.grouperClauses| && 0 <= j < |q.grouperClauses[k]|
      ensures TermInside(q.grouperClauses[k][j], io.recSize)
      ensures TermFits(q.grouperClauses[k][j], f) <==>
        SameWidth(q.grouperClauses[k][j].field1, f) && SameWidth(RightField(q.grouperClauses[k][j]), f)
    {
      assert TermFromTemplate(t, q.grouperClauses[k][j]);
    }
  }
}
