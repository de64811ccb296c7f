/** The terms of a flow query and the comparators generated for them by
    scripts/generate-functions.py. */
module Query {
  import opened Bytes

  /** A flow record once read: `read_trace` copies it out of the reader's buffer
      and nothing writes to it afterwards. Its identity is its address. */
  class Record {
    const bytes: seq<byte>

    constructor (bytes: seq<byte>)
      ensures this.bytes == bytes
    {
      this.bytes := bytes;
    }
  }

  function Val(r: Record, f: Field): u64 {
    LoadField(r.bytes, f)
  }

  /** The number in the bytes of a field. */
  ghost function Number(r: Record, f: Field): nat {
    Load(r.bytes, f.off, f.w)
  }

  /** A finished group: its members in order, their time span, and the cooked
      record with the aggregates next to it. */
  datatype GroupView = GroupView(members: seq<Record>, startTs: u64, endTs: u64,
                                 cooked: seq<byte>, aggrset: seq<seq<u64>>)

  /** What the grouper returns: its groups, and beside them the same groups clause
      by clause with the sorted array each clause scanned. */
  datatype GrouperResult = GrouperResult(groupset: seq<GroupView>, segments: seq<seq<GroupView>>,
                                         sorted: seq<seq<Record>>)

  datatype Cmp = EQ | NE | GT | LT | LE | GE

  datatype OpType = ABS | REL | NO

  /** `x op value`, widened by `delta` in `uint64_t` arithmetic. */
  predicate Compare(op: Cmp, x: u64, value: u64, delta: u64) {
    match op
    case EQ => x >= Sub64(value, delta) && x <= Add64(value, delta)
    case NE => x < Sub64(value, delta) || x > Add64(value, delta)
    case LT => x < Add64(value, delta)
    case LE => x <= Add64(value, delta)
    case GT => x > Sub64(value, delta)
    case GE => x >= Sub64(value, delta)
  }

  predicate ComparePlain(op: Cmp, x: u64, value: u64) {
    match op
    case EQ => x == value
    case NE => x != value
    case LT => x < value
    case LE => x <= value
    case GT => x > value
    case GE => x >= value
  }

  /** What the widened comparison is meant to say, on unbounded integers. */
  predicate CompareIdeal(op: Cmp, x: int, value: int, delta: int) {
    match op
    case EQ => value - delta <= x <= value + delta
    case NE => x < value - delta || x > value + delta
    case LT => x < value + delta
    case LE => x <= value + delta
    case GT => x > value - delta
    case GE => x >= value - delta
  }

  /** Neither bound wraps around in 64 bits. */
  predicate NoWrap(op: Cmp, value: u64, delta: u64) {
    && (UsesUpper(op) ==> value + delta < TWO_64)
    && (UsesLower(op) ==> delta <= value)
  }

  predicate UsesUpper(op: Cmp) { op.EQ? || op.NE? || op.LT? || op.LE? }

  predicate UsesLower(op: Cmp) { op.EQ? || op.NE? || op.GT? || op.GE? }

  /** No bound wraps, or the upper one does but ends up where no field value up
      to `top` can tell. */
  predicate Harmless(op: Cmp, value: u64, delta: u64, top: u64) {
    && (UsesLower(op) ==> delta <= value)
    && (UsesUpper(op) && TWO_64 <= value + delta ==>
          var upper := value + delta - TWO_64;
          if op.LT? then top < upper
          else top <= upper || ((op.EQ? || op.NE?) && top < value - delta))
  }

  /** For every value of a field of w bytes the comparator means what it says
      exactly when no bound wraps around to where the field can reach; for 8
      bytes, exactly when no bound wraps around at all. */
  lemma CompareMeaning(op: Cmp, value: u64, delta: u64, w: Width)
    ensures (forall x: u64 :: x < Pow256(w) ==> (Compare(op, x, value, delta) <==> CompareIdeal(op, x, value, delta)))
            <==> Harmless(op, value, delta, FieldTop(w))
    ensures w == 8 ==> (Harmless(op, value, delta, FieldTop(w)) <==> NoWrap(op, value, delta))
  {
    WidthBounds();
    var top := FieldTop(w);
    if !Harmless(op, value, delta, top) {
      var x: u64 := if UsesLower(op) && value < delta then 0 else top;
      CompareBreaks(op, value, delta, top);
      assert Compare(op, x, value, delta) != CompareIdeal(op, x, value, delta);
    }
  }

  /** The largest value of a field of w bytes. */
  function FieldTop(w: Width): (top: u64)
    ensures top == Pow256(w) - 1
  {
    WidthBounds();
    Pow256(w) - 1
  }

  lemma CompareBreaks(op: Cmp, value: u64, delta: u64, top: u64)
    requires !Harmless(op, value, delta, top)
    ensures var x: u64 := if UsesLower(op) && value < delta then 0 else top;
      Compare(op, x, value, delta) != CompareIdeal(op, x, value, delta)
  {
  }

  // ---- filter and group filter ----

  datatype FilterTerm = FilterTerm(field: Field, value: u64, delta: u64, op: Cmp)

  type FilterClause = seq<FilterTerm>

  predicate BytesMatch(t: FilterTerm, b: seq<byte>) {
    Compare(t.op, LoadField(b, t.field), t.value, t.delta)
  }

  predicate ClauseMatches(c: FilterClause, b: seq<byte>) {
    forall j :: 0 <= j < |c| ==> BytesMatch(c[j], b)
  }

  /** The disjunctive normal form of filters and group filters. Without any
      clause nothing is accepted. */
  predicate DnfMatches(cs: seq<FilterClause>, b: seq<byte>) {
    exists k :: 0 <= k < |cs| && ClauseMatches(cs[k], b)
  }

  /** The clause loop of `read_trace` and of `groupfilter`, with its two flags. */
  method EvalDnf(cs: seq<FilterClause>, b: seq<byte>) returns (satisfied: bool)
    ensures satisfied <==> DnfMatches(cs, b)
  {
    satisfied := false;
    var k := 0;
    while k < |cs|
      invariant 0 <= k <= |cs| && !satisfied
      invariant forall i :: 0 <= i < k ==> !ClauseMatches(cs[i], b)
    {
      var j := 0;
      while j < |cs[k]| && BytesMatch(cs[k][j], b)
        invariant 0 <= j <= |cs[k]|
        invariant forall i :: 0 <= i < j ==> BytesMatch(cs[k][i], b)
      {
        j := j + 1;
      }
      if j == |cs[k]| {
        assert ClauseMatches(cs[k], b);
        return true;
      }
      k := k + 1;
    }
  }

  // ---- grouper ----

  datatype GrouperTerm = GrouperTerm(field1: Field, field2: Field, delta: u64, op: Cmp, optype: OpType)

  type GrouperClause = seq<GrouperTerm>

  /** `grouper_*`: the record against the first member of the group, or for a
      relative term against the last one. */
  predicate TermJoins(t: GrouperTerm, members: seq<Record>, r: Record)
    requires members != []
  {
    var held := members[if t.optype.REL? then |members| - 1 else 0];
    if t.optype.NO? then ComparePlain(t.op, Val(held, t.field1), Val(r, t.field2))
    else Compare(t.op, Val(held, t.field1), Val(r, t.field2), t.delta)
  }

  predicate ClauseJoins(c: GrouperClause, members: seq<Record>, r: Record)
    requires members != []
  {
    forall j :: 0 <= j < |c| ==> TermJoins(c[j], members, r)
  }

  // ---- merger ----

  datatype MergerTerm = MergerTerm(branch1: nat, field1: Field, branch2: nat, field2: Field, op: Cmp)

  type MergerClause = seq<MergerTerm>

  /** `merger_*` on the cooked records; `merger` always passes a zero delta. */
  predicate GroupsMerge(t: MergerTerm, group1: GroupView, group2: GroupView) {
    var x := LoadField(group1.cooked, t.field1);
    var y := LoadField(group2.cooked, t.field2);
    x != 0 && y != 0 && Compare(t.op, x, y, 0)
  }

  predicate TermMerges(t: MergerTerm, tuple: seq<GroupView>)
    requires t.branch1 < |tuple| && t.branch2 < |tuple|
  {
    GroupsMerge(t, tuple[t.branch1], tuple[t.branch2])
  }

  predicate WellBranched(cs: seq<MergerClause>, branches: nat) {
    forall k, j :: 0 <= k < |cs| && 0 <= j < |cs[k]| ==>
      cs[k][j].branch1 < branches && cs[k][j].branch2 < branches
  }
}
