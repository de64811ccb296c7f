/** The stages put together: group filter, branch, ungrouper and the run of a
    whole query (src/groupfilter.c, src/branch.c, src/ungrouper.c, src/f.c). */
module Pipeline {
  import opened Bytes
  import opened Cooked
  import opened Folds
  import opened Grouper
  import opened Merger
  import opened Odometer
  import opened Query
  import opened Runs
  import opened Seqs
  import opened Sorting
  import opened Trace

  // ---- group filter ----

  function Passes(cs: seq<FilterClause>): GroupView -> bool {
    (g: GroupView) => DnfMatches(cs, g.cooked)
  }

  /** `groupfilter`: the groups whose cooked record satisfies some clause. */
  method GroupFilter(cs: seq<FilterClause>, groups: seq<GroupView>) returns (kept: seq<GroupView>)
    ensures kept == Filter(groups, Passes(cs))
  {
    hide DnfMatches;
    kept := [];
    for i := 0 to |groups|
      invariant kept == Filter(groups[..i], Passes(cs))
    {
      var satisfied := EvalDnf(cs, groups[i].cooked);
      FilterStep(groups, Passes(cs), i);
      if satisfied {
        kept := kept + [groups[i]];
      }
    }
    assert groups[..|groups|] == groups;
  }

  // ---- one branch ----

  /** What a branch makes of its filtered records, for some outcome of its sorts. */
  ghost predicate BranchOutcome(io: Io, q: BranchQuery, filtered: seq<Record>,
                                res: GrouperResult, kept: Groups) {
    && Grouped(io, q, filtered, res.groupset, res.segments, res.sorted)
    && kept == Filter(res.groupset, Passes(q.groupFilterClauses))
  }

  /** `branch_start`, the body of a branch's thread: group, then filter groups. */
  method BranchStart(io: Io, branch: Branch)
    requires Terminated(branch) && InBounds(io, branch.query)
    modifies branch`grouperResult, branch`gfilterResult, branch.filteredRecordset
    ensures BranchOutcome(io, branch.query, branch.filtered, branch.grouperResult, branch.gfilterResult)
  {
    hide Grouped, InBounds;
    var a, n := branch.filteredRecordset, |branch.filtered|;
    assert Records(a, n) == branch.filtered;
    var groups, segments, sorted := GroupRecords(io, branch.query, a, n);
    branch.grouperResult := GrouperResult(groups, segments, sorted);
    branch.gfilterResult := GroupFilter(branch.query.groupFilterClauses, groups);
  }

  // ---- ungrouper ----

  /** A stream: the members of the tuple's groups, branch by branch. */
  function StreamOf(tuple: seq<GroupView>): seq<Record> {
    Flatten(MembersOf(tuple))
  }

  /** `ungrouper`: one stream per merged tuple. */
  method Ungroup(tuples: seq<seq<GroupView>>) returns (streams: seq<seq<Record>>)
    ensures |streams| == |tuples|
    ensures forall i :: 0 <= i < |tuples| ==> streams[i] == StreamOf(tuples[i])
  {
    streams := [];
    for i := 0 to |tuples|
      invariant |streams| == i
      invariant forall k :: 0 <= k < i ==> streams[k] == StreamOf(tuples[k])
    {
      var stream := [];
      for j := 0 to |tuples[i]|
        invariant stream == StreamOf(tuples[i][..j])
      {
        var group := tuples[i][j];
        StreamSnoc(tuples[i], j);
        for l := 0 to |group.members|
          invariant stream == StreamOf(tuples[i][..j]) + group.members[..l]
        {
          stream := stream + [group.members[l]];
        }
        assert group.members[..|group.members|] == group.members;
      }
      assert tuples[i][..|tuples[i]|] == tuples[i];
      streams := streams + [stream];
    }
  }

  lemma StreamSnoc(tuple: seq<GroupView>, j: nat)
    requires j < |tuple|
    ensures StreamOf(tuple[..j + 1]) == StreamOf(tuple[..j]) + tuple[j].members
  {
    assert MembersOf(tuple[..j + 1]) == MembersOf(tuple[..j]) + [tuple[j].members];
    FlattenSnoc(MembersOf(tuple[..j]), tuple[j].members);
  }

  /** Where branch j's records sit in the stream of a tuple. */
  lemma {:induction false} StreamSegment(tuple: seq<GroupView>, j: nat)
    requires j < |tuple|
    ensures var lo := |StreamOf(tuple[..j])|;
      lo + |tuple[j].members| <= |StreamOf(tuple)|
      && StreamOf(tuple)[lo..lo + |tuple[j].members|] == tuple[j].members
  {
    StreamSnoc(tuple, j);
    var head, rest := tuple[..j + 1], tuple[j + 1..];
    assert tuple == head + rest;
    MembersOfAppend(head, rest);
    FlattenAppend(MembersOf(head), MembersOf(rest));
  }

  /** A stream is as long as its groups have members together. */
  lemma {:induction false} StreamLength(tuple: seq<GroupView>)
    ensures |StreamOf(tuple)| == SumBy(tuple, (g: GroupView) => |g.members|)
  {
    if tuple != [] {
      var n := |tuple| - 1;
      StreamLength(tuple[..n]);
      StreamSnoc(tuple, n);
      assert tuple[..n + 1] == tuple;
    }
  }

  // ---- a whole query ----

  /** The result of every stage, tied to the stage before it. */
  ghost predicate QueryOutcome(io: Io, qs: seq<BranchQuery>, cs: seq<MergerClause>, trace: seq<seq<byte>>,
                               store: seq<Record>, filtereds: seq<seq<Record>>,
                               groups: seq<GrouperResult>, kept: seq<Groups>,
                               tuples: seq<seq<GroupView>>, streams: seq<seq<Record>>) {
    && FannedOut(FilterClauses(qs), trace, store, filtereds)
    && AllOutcomes(io, qs, filtereds, groups, kept)
    && Unfolded(cs, kept, tuples, streams)
  }

  /** Every branch ended with an outcome of its own filtered records. */
  ghost predicate AllOutcomes(io: Io, qs: seq<BranchQuery>, filtereds: seq<seq<Record>>,
                              groups: seq<GrouperResult>, kept: seq<Groups>) {
    && |qs| == |filtereds| == |groups| == |kept|
    && forall j :: 0 <= j < |qs| ==> BranchOutcome(io, qs[j], filtereds[j], groups[j], kept[j])
  }

  function FilterClauses(qs: seq<BranchQuery>): (css: seq<seq<FilterClause>>)
    ensures |css| == |qs|
  {
    seq(|qs|, i requires 0 <= i < |qs| => qs[i].filterClauses)
  }

  function QueriesOf(branches: seq<Branch>): (qs: seq<BranchQuery>)
    ensures |qs| == |branches|
    ensures forall i :: 0 <= i < |branches| ==> qs[i] == branches[i].query
  {
    seq(|branches|, i requires 0 <= i < |branches| => branches[i].query)
  }

  /** Position p of a tuple's stream lies in the piece of branch j, and holds
      the a-th member of that branch's group. */
  ghost predicate HeldFor(tuple: seq<GroupView>, p: nat, j: nat, a: nat)
    requires p < |StreamOf(tuple)|
  {
    && j < |tuple| && a < |tuple[j].members|
    && p == |StreamOf(tuple[..j])| + a && StreamOf(tuple)[p] == tuple[j].members[a]
  }

  /** A stream holds nothing but members of its tuple's groups. */
  lemma StreamPosition(tuple: seq<GroupView>, p: nat) returns (j: nat, a: nat)
    requires p < |StreamOf(tuple)|
    ensures HeldFor(tuple, p, j, a)
  {
    j, a := RunAt(MembersOf(tuple), p);
    assert MembersOf(tuple[..j]) == MembersOf(tuple)[..j];
  }

  /** Every record at every place of every stream belongs to one branch j: it
      came from the trace, passed the filter of branch j, and sits in a group of
      branch j that passed its group filter, in a tuple the merger accepted. */
  lemma StreamsAreSound(io: Io, qs: seq<BranchQuery>, cs: seq<MergerClause>, trace: seq<seq<byte>>,
                        store: seq<Record>, filtereds: seq<seq<Record>>, groups: seq<GrouperResult>,
                        kept: seq<Groups>, tuples: seq<seq<GroupView>>, streams: seq<seq<Record>>, i: nat, p: nat)
    returns (j: nat, a: nat)
    requires QueryOutcome(io, qs, cs, trace, store, filtereds, groups, kept, tuples, streams)
    requires i < |streams| && p < |streams[i]|
    ensures streams[i] == StreamOf(tuples[i]) && |tuples[i]| == |qs|
    ensures HeldFor(tuples[i], p, j, a) && Accepts(cs, tuples[i])
    ensures CameThrough(qs[j], trace, store, groups[j], tuples[i][j], streams[i][p])
  {
    hide DnfMatches, Accepts, BranchOutcome, FannedOut;
    j, a := StreamPosition(tuples[i], p);
    var g, r := tuples[i][j], streams[i][p];
    assert r in g.members;
    assert tuples[i] in tuples;
    JoinMembers(kept, AcceptsTest(cs), tuples[i]);
    assert BranchOutcome(io, qs[j], filtereds[j], groups[j], kept[j]);
    KeptIsGrouped(io, qs[j], filtereds[j], groups[j], kept[j], g);
    GroupedIsFiltered(io, qs[j], filtereds[j], groups[j], kept[j], g, r);
    FilteredIsRead(FilterClauses(qs), trace, store, filtereds, j, r);
  }

  /** The record went through all stages of a branch: read, filtered, grouped,
      and its group filtered. */
  ghost predicate CameThrough(q: BranchQuery, trace: seq<seq<byte>>, store: seq<Record>,
                              res: GrouperResult, g: GroupView, r: Record) {
    && r in store && r.bytes in trace && DnfMatches(q.filterClauses, r.bytes)
    && r in g.members && g in res.groupset && DnfMatches(q.groupFilterClauses, g.cooked)
  }

  lemma KeptIsGrouped(io: Io, q: BranchQuery, filtered: seq<Record>, res: GrouperResult, kept: Groups, g: GroupView)
    requires BranchOutcome(io, q, filtered, res, kept)
    ensures g in kept <==> g in res.groupset && DnfMatches(q.groupFilterClauses, g.cooked)
  {
    hide DnfMatches, Grouped;
    FilterMembers(res.groupset, Passes(q.groupFilterClauses), g);
  }

  lemma GroupedIsFiltered(io: Io, q: BranchQuery, filtered: seq<Record>, res: GrouperResult, kept: Groups,
                          g: GroupView, r: Record)
    requires BranchOutcome(io, q, filtered, res, kept) && g in res.groupset && r in g.members
    ensures r in filtered
  {
    hide Grouped;
    MembersAreFiltered(io, q, filtered, res.groupset, res.segments, res.sorted, r);
  }

  lemma FilteredIsRead(css: seq<seq<FilterClause>>, trace: seq<seq<byte>>, store: seq<Record>,
                       filtereds: seq<seq<Record>>, j: nat, r: Record)
    requires FannedOut(css, trace, store, filtereds) && j < |css|
    ensures r in filtereds[j] <==> r in store && DnfMatches(css[j], r.bytes)
    ensures r in store ==> r.bytes in trace
  {
    hide DnfMatches;
    FilterMembers(store, AcceptsRecord(css[j]), r);
    if r in store {
      var k :| 0 <= k < |store| && store[k] == r;
      assert BytesOf(store)[k] == r.bytes;
      FilterMembers(trace, AnyAccepts(css), r.bytes);
    }
  }

  /** One group per branch, each passing the branch's group filter. */
  predicate ChosenFrom(qs: seq<BranchQuery>, groups: seq<GrouperResult>, tuple: seq<GroupView>) {
    && |qs| == |groups| == |tuple|
    && forall j :: 0 <= j < |qs| ==>
      tuple[j] in groups[j].groupset && DnfMatches(qs[j].groupFilterClauses, tuple[j].cooked)
  }

  /** Nothing is lost: every choice of passing groups the merger accepts has a
      stream, and that stream holds all members of all its groups, in order. */
  lemma StreamsAreComplete(io: Io, qs: seq<BranchQuery>, cs: seq<MergerClause>, trace: seq<seq<byte>>,
                           store: seq<Record>, filtereds: seq<seq<Record>>, groups: seq<GrouperResult>,
                           kept: seq<Groups>, tuples: seq<seq<GroupView>>, streams: seq<seq<Record>>,
                           tuple: seq<GroupView>)
    requires QueryOutcome(io, qs, cs, trace, store, filtereds, groups, kept, tuples, streams)
    requires Accepts(cs, tuple) && ChosenFrom(qs, groups, tuple)
    ensures exists i :: 0 <= i < |streams| && streams[i] == StreamOf(tuple)
    ensures StreamHoldsAll(tuple)
  {
    hide DnfMatches, Accepts, BranchOutcome, FannedOut;
    forall j | 0 <= j < |qs|
      ensures tuple[j] in kept[j]
    {
      assert BranchOutcome(io, qs[j], filtereds[j], groups[j], kept[j]);
      KeptIsGrouped(io, qs[j], filtereds[j], groups[j], kept[j], tuple[j]);
    }
    JoinMembers(kept, AcceptsTest(cs), tuple);
    var i :| 0 <= i < |tuples| && tuples[i] == tuple;
    assert streams[i] == StreamOf(tuple);
    StreamLength(tuple);
    forall j | 0 <= j < |tuple|
      ensures SegmentAt(tuple, j)
    {
      StreamSegment(tuple, j);
    }
  }

  /** The stream holds group j's members, in order, behind those of the groups
      before it. */
  ghost predicate SegmentAt(tuple: seq<GroupView>, j: nat)
    requires j < |tuple|
  {
    var lo := |StreamOf(tuple[..j])|;
    lo + |tuple[j].members| <= |StreamOf(tuple)|
    && StreamOf(tuple)[lo..lo + |tuple[j].members|] == tuple[j].members
  }

  /** Exactly the members of all groups, each group's in one piece. */
  ghost predicate StreamHoldsAll(tuple: seq<GroupView>) {
    && |StreamOf(tuple)| == SumBy(tuple, (g: GroupView) => |g.members|)
    && forall j :: 0 <= j < |tuple| ==> SegmentAt(tuple, j)
  }

  /** Every trace record a branch's filter accepts is a member of a group. */
  lemma AcceptedRecordsAreGrouped(io: Io, qs: seq<BranchQuery>, cs: seq<MergerClause>, trace: seq<seq<byte>>,
                                  store: seq<Record>, filtereds: seq<seq<Record>>, groups: seq<GrouperResult>,
                                  kept: seq<Groups>, tuples: seq<seq<GroupView>>, streams: seq<seq<Record>>,
                                  j: nat, b: seq<byte>)
    requires QueryOutcome(io, qs, cs, trace, store, filtereds, groups, kept, tuples, streams)
    requires j < |qs| && b in trace && DnfMatches(qs[j].filterClauses, b)
    ensures exists g, r :: g in groups[j].groupset && r in g.members && r.bytes == b
  {
    hide DnfMatches, Grouped;
    var css := FilterClauses(qs);
    BranchReceives(css, trace, store, filtereds, j);
    FilterMembers(trace, AcceptsBytes(css[j]), b);
    assert b in BytesOf(filtereds[j]);
    var k :| 0 <= k < |filtereds[j]| && BytesOf(filtereds[j])[k] == b;
    var r := filtereds[j][k];
    assert BranchOutcome(io, qs[j], filtereds[j], groups[j], kept[j]);
    var res := groups[j];
    MembersAreFiltered(io, qs[j], filtereds[j], res.groupset, res.segments, res.sorted, r);
    var i :| 0 <= i < |res.groupset| && r in res.groupset[i].members;
    assert res.groupset[i] in res.groupset;
  }

  // ---- the run ----

  function GroupsOf(branches: seq<Branch>): (gs: seq<GrouperResult>)
    reads branches`grouperResult
    ensures |gs| == |branches| && forall i :: 0 <= i < |gs| ==> gs[i] == branches[i].grouperResult
  {
    if branches == [] then []
    else GroupsOf(branches[..|branches| - 1]) + [branches[|branches| - 1].grouperResult]
  }

  function KeptOf(branches: seq<Branch>): (ks: seq<Groups>)
    reads branches`gfilterResult
    ensures |ks| == |branches| && forall i :: 0 <= i < |ks| ==> ks[i] == branches[i].gfilterResult
  {
    if branches == [] then []
    else KeptOf(branches[..|branches| - 1]) + [branches[|branches| - 1].gfilterResult]
  }

  /** Every branch's thread, one after the other; the module `Threads` shows that
      any other schedule ends in the same way. */
  method RunBranches(io: Io, branches: seq<Branch>)
    requires Distinct(branches) && SeparateArrays(branches)
    requires forall i :: 0 <= i < |branches| ==> Terminated(branches[i]) && InBounds(io, branches[i].query)
    modifies branches`grouperResult, branches`gfilterResult
    modifies set b | b in branches :: b.filteredRecordset
    ensures FilteredOf(branches) == old(FilteredOf(branches))
    ensures AllOutcomes(io, QueriesOf(branches), FilteredOf(branches), GroupsOf(branches), KeptOf(branches))
  {
    hide BranchOutcome, InBounds, FilteredOf, GroupsOf, KeptOf;
    for i := 0 to |branches|
      invariant forall k :: i <= k < |branches| ==> Terminated(branches[k])
      invariant forall k :: 0 <= k < i ==>
        BranchOutcome(io, branches[k].query, branches[k].filtered,
                      branches[k].grouperResult, branches[k].gfilterResult)
    {
      BranchStart(io, branches[i]);
    }
  }

  /** What the 32-bit counter of tried tuples must show. */
  ghost predicate AllTried(kept: seq<Groups>, total: nat) {
    total == Product(Counts(kept)) % TWO_32
  }

  ghost predicate Unfolded(cs: seq<MergerClause>, kept: seq<Groups>, tuples: seq<seq<GroupView>>,
                           streams: seq<seq<Record>>) {
    && tuples == Join(kept, AcceptsTest(cs))
    && |streams| == |tuples| && forall i :: 0 <= i < |tuples| ==> streams[i] == StreamOf(tuples[i])
  }

  /** The two stages after all threads have been joined. */
  method MergeAndUngroup(cs: seq<MergerClause>, kept: seq<Groups>)
    returns (result: MergerResult, streams: seq<seq<Record>>)
    requires 1 <= |kept| && WellBranched(cs, |kept|)
    ensures Unfolded(cs, kept, result.groupTuples, streams) && AllTried(kept, result.total)
  {
    result := Merge(cs, kept);
    streams := Ungroup(result.groupTuples);
  }

  lemma SameFilters(branches: seq<Branch>)
    ensures FilterClauses(QueriesOf(branches)) == FiltersOf(branches)
  {
  }

  /** The engine from the first trace record to the last stream. */
  method RunQuery(io: Io, reader: Reader, data: IoData, branches: seq<Branch>, cs: seq<MergerClause>)
    returns (result: MergerResult, streams: seq<seq<Record>>)
    requires reader.Valid() && reader.pos == 0 && data.recordset == [] && Distinct(branches)
    requires forall i :: 0 <= i < |branches| ==> branches[i].filtered == [] && InBounds(io, branches[i].query)
    requires 1 <= |branches| && WellBranched(cs, |branches|)
    modifies reader`pos, reader.recBuf, data, branches
    ensures QueryOutcome(io, QueriesOf(branches), cs, reader.trace, data.recordset, FilteredOf(branches),
                         GroupsOf(branches), KeptOf(branches), result.groupTuples, streams)
    ensures AllTried(KeptOf(branches), result.total)
  {
    hide FannedOut, AllOutcomes, InBounds, WellBranched, Unfolded, AllTried, FilteredOf, KeptOf, GroupsOf;
    hide Terminated, SeparateArrays, Distinct, FiltersOf, FilterClauses, QueriesOf;
    ReadTrace(reader, data, branches);
    RunBranches(io, branches);
    SameFilters(branches);
    result, streams := MergeAndUngroup(cs, KeptOf(branches));
  }
}
