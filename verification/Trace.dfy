/** `read_trace` of src/f.c: one pass over the trace feeds every branch, through
    a reader that overwrites its one buffer (src/io-ipfix.c). */
module Trace {
  import opened Bytes
  import opened Cooked
  import opened Query
  import opened Seqs

  /** The record reader: a stream of records and the buffer they pass through. */
  class Reader {
    const recBuf: array<byte>
    const trace: seq<seq<byte>>
    var pos: nat

    ghost predicate Valid()
      reads this
    {
      pos <= |trace| && forall k :: 0 <= k < |trace| ==> |trace[k]| == recBuf.Length
    }

    constructor (recBuf: array<byte>, trace: seq<seq<byte>>)
      requires forall k :: 0 <= k < |trace| ==> |trace[k]| == recBuf.Length
      ensures Valid() && this.recBuf == recBuf && this.trace == trace && pos == 0
    {
      this.recBuf, this.trace, pos := recBuf, trace, 0;
    }

    /** `io_ipfix_read_record`: the next record, always in the same buffer. */
    method ReadRecord() returns (record: array?<byte>)
      requires Valid()
      modifies this`pos, recBuf
      ensures Valid()
      ensures record == null <==> old(pos) == |trace|
      ensures record == null ==> pos == old(pos)
      ensures record != null ==> record == recBuf && pos == old(pos) + 1 && record[..] == trace[old(pos)]
    {
      if pos == |trace| {
        return null;
      }
      var bytes := trace[pos];
      for i := 0 to recBuf.Length
        invariant pos == old(pos) && recBuf[..i] == bytes[..i]
      {
        recBuf[i] := bytes[i];
      }
      assert recBuf[..] == bytes;
      pos := pos + 1;
      record := recBuf;
    }
  }

  /** The copies all branches share. */
  class IoData {
    var recordset: seq<Record>

    constructor ()
      ensures recordset == []
    {
      recordset := [];
    }
  }

  /** A branch: its part of the query, and what each stage leaves in it. */
  class Branch {
    const query: BranchQuery
    var filtered: seq<Record>
    var filteredRecordset: array<Record?>
    var grouperResult: GrouperResult
    var gfilterResult: seq<GroupView>

    constructor (query: BranchQuery)
      ensures this.query == query && filtered == [] && gfilterResult == []
      ensures fresh(filteredRecordset)
    {
      this.query := query;
      filtered, grouperResult, gfilterResult := [], GrouperResult([], [], []), [];
      filteredRecordset := new Record?[1](i => null);
    }
  }

  // ---- what the pass must leave behind ----

  function BytesOf(rs: seq<Record>): (bs: seq<seq<byte>>)
    ensures |bs| == |rs|
  {
    seq(|rs|, i requires 0 <= i < |rs| => rs[i].bytes)
  }

  function AcceptsBytes(cs: seq<FilterClause>): seq<byte> -> bool {
    (b: seq<byte>) => DnfMatches(cs, b)
  }

  function AcceptsRecord(cs: seq<FilterClause>): Record -> bool {
    (r: Record) => DnfMatches(cs, r.bytes)
  }

  /** Accepted by at least one of the filters. */
  function AnyAccepts(css: seq<seq<FilterClause>>): seq<byte> -> bool {
    (b: seq<byte>) => exists i :: 0 <= i < |css| && DnfMatches(css[i], b)
  }

  function FiltersOf(branches: seq<Branch>): (css: seq<seq<FilterClause>>)
    ensures |css| == |branches|
  {
    seq(|branches|, i requires 0 <= i < |branches| => branches[i].query.filterClauses)
  }

  ghost predicate Distinct(branches: seq<Branch>) {
    forall i, j :: 0 <= i < j < |branches| ==> branches[i] != branches[j]
  }

  /** The shared store holds one copy of each record some branch accepts, in
      trace order; each branch holds, in order, those it accepts itself. */
  ghost predicate FannedOut(css: seq<seq<FilterClause>>, trace: seq<seq<byte>>, store: seq<Record>,
                            filtereds: seq<seq<Record>>) {
    && NoRepeats(store) && BytesOf(store) == Filter(trace, AnyAccepts(css))
    && |filtereds| == |css|
    && forall i :: 0 <= i < |css| ==> filtereds[i] == Filter(store, AcceptsRecord(css[i]))
  }

  function FilteredOf(branches: seq<Branch>): (fs: seq<seq<Record>>)
    reads branches`filtered
    ensures |fs| == |branches|
    ensures forall i :: 0 <= i < |branches| ==> fs[i] == branches[i].filtered
  {
    if branches == [] then []
    else FilteredOf(branches[..|branches| - 1]) + [branches[|branches| - 1].filtered]
  }

  /** The records the filters see after one more trace record `b`, of which
      `copies` (none or one) went into the store. */
  lemma OneMore(css: seq<seq<FilterClause>>, trace: seq<seq<byte>>, n: nat, store: seq<Record>,
                filtereds: seq<seq<Record>>, copies: seq<Record>, filtereds': seq<seq<Record>>)
    requires n < |trace| && FannedOut(css, trace[..n], store, filtereds)
    requires copies == [] <==> forall i :: 0 <= i < |css| ==> !DnfMatches(css[i], trace[n])
    requires |copies| <= 1 && forall r :: r in copies ==> r.bytes == trace[n] && r !in store
    requires |filtereds'| == |css|
    requires forall i :: 0 <= i < |css| ==>
      filtereds'[i] == filtereds[i] + (if DnfMatches(css[i], trace[n]) then copies else [])
    ensures FannedOut(css, trace[..n + 1], store + copies, filtereds')
  {
    hide DnfMatches;
    FilterStep(trace, AnyAccepts(css), n);
    assert BytesOf(store + copies) == BytesOf(store) + (if copies == [] then [] else [trace[n]]);
    forall i | 0 <= i < |css|
      ensures filtereds'[i] == Filter(store + copies, AcceptsRecord(css[i]))
    {
      if copies == [] {
        assert store + copies == store;
      } else {
        assert copies == [copies[0]] && copies[0] in copies;
        assert (store + copies)[..|store|] == store;
      }
    }
  }

  /** What one branch received is, byte for byte, the subsequence of the trace
      its filter accepts. */
  lemma BranchReceives(css: seq<seq<FilterClause>>, trace: seq<seq<byte>>, store: seq<Record>,
                       filtereds: seq<seq<Record>>, i: nat)
    requires FannedOut(css, trace, store, filtereds) && i < |css|
    ensures BytesOf(filtereds[i]) == Filter(trace, AcceptsBytes(css[i]))
    ensures forall r :: r in filtereds[i] ==> r in store
  {
    hide DnfMatches;
    FilterOfBytes(store, css[i]);
    FilterTwice(trace, AnyAccepts(css), AcceptsBytes(css[i]));
    forall r | r in filtereds[i]
      ensures r in store
    {
      FilterMembers(store, AcceptsRecord(css[i]), r);
    }
  }

  lemma {:induction false} FilterOfBytes(store: seq<Record>, cs: seq<FilterClause>)
    ensures BytesOf(Filter(store, AcceptsRecord(cs))) == Filter(BytesOf(store), AcceptsBytes(cs))
  {
    hide DnfMatches;
    if store != [] {
      var n := |store| - 1;
      FilterOfBytes(store[..n], cs);
      assert BytesOf(store)[..n] == BytesOf(store[..n]);
      var front := Filter(store[..n], AcceptsRecord(cs));
      assert BytesOf(front + [store[n]]) == BytesOf(front) + [store[n].bytes];
      assert front + [] == front && BytesOf(front) + [] == BytesOf(front);
    } else {
      assert BytesOf(store) == [];
    }
  }

  // ---- the pass ----

  /** One record through all branches: copied at the first branch that accepts
      it, shared by the later ones. */
  method FilterRecord(record: array<byte>, data: IoData, branches: seq<Branch>)
    returns (ghost copies: seq<Record>)
    requires Distinct(branches)
    modifies data, branches`filtered
    ensures |copies| <= 1 && fresh(set r | r in copies)
    ensures forall r :: r in copies ==> r.bytes == record[..]
    ensures copies == [] <==>
      forall i :: 0 <= i < |branches| ==> !DnfMatches(branches[i].query.filterClauses, record[..])
    ensures data.recordset == old(data.recordset) + copies
    ensures forall i :: 0 <= i < |branches| ==>
      branches[i].filtered == old(branches[i].filtered)
        + (if DnfMatches(branches[i].query.filterClauses, record[..]) then copies else [])
  {
    var target: Record? := null;
    copies := [];
    ghost var before := data.recordset;
    for i := 0 to |branches|
      invariant copies == if target == null then [] else [target]
      invariant target != null ==> fresh(target) && target.bytes == record[..]
      invariant target == null <==>
        forall k :: 0 <= k < i ==> !DnfMatches(branches[k].query.filterClauses, record[..])
      invariant data.recordset == before + copies
      invariant forall k :: i <= k < |branches| ==> branches[k].filtered == old(branches[k].filtered)
      invariant forall k :: 0 <= k < i ==>
        branches[k].filtered == old(branches[k].filtered)
          + (if DnfMatches(branches[k].query.filterClauses, record[..]) then copies else [])
    {
      var branch := branches[i];
      var satisfied := EvalDnf(branch.query.filterClauses, record[..]);
      if satisfied {
        if target == null {
          target := new Record(record[..]);
          data.recordset := data.recordset + [target];
          copies := [target];
        }
        branch.filtered := branch.filtered + [target];
      }
    }
  }

  /** The NULL behind the last filtered record. */
  method Terminate(branch: Branch)
    modifies branch`filteredRecordset
    ensures fresh(branch.filteredRecordset) && branch.filteredRecordset.Length == |branch.filtered| + 1
    ensures forall k :: 0 <= k < |branch.filtered| ==> branch.filteredRecordset[k] == branch.filtered[k]
    ensures branch.filteredRecordset[|branch.filtered|] == null
  {
    var n := |branch.filtered|;
    var a := new Record?[n + 1](i => null);
    for k := 0 to n
      invariant forall i :: 0 <= i < k ==> a[i] == branch.filtered[i]
      invariant a[n] == null
    {
      a[k] := branch.filtered[k];
    }
    branch.filteredRecordset := a;
  }

  ghost predicate Terminated(branch: Branch)
    reads branch, branch.filteredRecordset
  {
    && branch.filteredRecordset.Length == |branch.filtered| + 1
    && (forall k :: 0 <= k < |branch.filtered| ==> branch.filteredRecordset[k] == branch.filtered[k])
    && branch.filteredRecordset[|branch.filtered|] == null
  }

  /** Different branches work on different arrays. */
  ghost predicate SeparateArrays(branches: seq<Branch>)
    reads branches
  {
    forall i, j :: 0 <= i < j < |branches| ==> branches[i].filteredRecordset != branches[j].filteredRecordset
  }

  /** `read_trace`. */
  method ReadTrace(reader: Reader, data: IoData, branches: seq<Branch>)
    requires reader.Valid() && reader.pos == 0 && data.recordset == [] && Distinct(branches)
    requires forall i :: 0 <= i < |branches| ==> branches[i].filtered == []
    modifies reader`pos, reader.recBuf, data, branches
    ensures FannedOut(FiltersOf(branches), reader.trace, data.recordset, FilteredOf(branches))
    ensures forall i :: 0 <= i < |branches| ==>
      Terminated(branches[i]) && fresh(branches[i].filteredRecordset)
    ensures SeparateArrays(branches)
  {
    hide FannedOut;
    ReadAll(reader, data, branches);
    TerminateAll(branches);
  }

  method TerminateAll(branches: seq<Branch>)
    requires Distinct(branches)
    modifies branches`filteredRecordset
    ensures forall i :: 0 <= i < |branches| ==>
      Terminated(branches[i]) && fresh(branches[i].filteredRecordset)
    ensures SeparateArrays(branches)
  {
    for i := 0 to |branches|
      invariant forall k :: 0 <= k < i ==> fresh(branches[k].filteredRecordset) && Terminated(branches[k])
      invariant forall j, k :: 0 <= j < k < i ==>
        branches[j].filteredRecordset != branches[k].filteredRecordset
    {
      Terminate(branches[i]);
    }
  }

  /** The reading loop. */
  method ReadAll(reader: Reader, data: IoData, branches: seq<Branch>)
    requires reader.Valid() && reader.pos == 0 && data.recordset == [] && Distinct(branches)
    requires forall i :: 0 <= i < |branches| ==> branches[i].filtered == []
    modifies reader`pos, reader.recBuf, data, branches`filtered
    ensures FannedOut(FiltersOf(branches), reader.trace, data.recordset, FilteredOf(branches))
  {
    hide FannedOut, DnfMatches, FilteredOf;
    ghost var css, trace := FiltersOf(branches), reader.trace;
    NothingRead(css, FilteredOf(branches));
    assert trace[..0] == [];
    var record := reader.ReadRecord();
    while record != null
      invariant reader.Valid()
      invariant record != null ==> 1 <= reader.pos && record == reader.recBuf && record[..] == trace[reader.pos - 1]
      invariant record == null ==> reader.pos == |trace|
      invariant FannedOut(css, trace[..if record == null then reader.pos else reader.pos - 1],
                          data.recordset, FilteredOf(branches))
      decreases if record == null then 0 else |trace| - reader.pos + 1
    {
      ghost var n, store, filtereds := reader.pos - 1, data.recordset, FilteredOf(branches);
      ghost var copies := FilterRecord(record, data, branches);
      OneMore(css, trace, n, store, filtereds, copies, FilteredOf(branches));
      record := reader.ReadRecord();
    }
    assert trace[..|trace|] == trace;
  }

  lemma NothingRead(css: seq<seq<FilterClause>>, filtereds: seq<seq<Record>>)
    requires |filtereds| == |css| && forall i :: 0 <= i < |css| ==> filtereds[i] == []
    ensures FannedOut(css, [], [], filtereds)
  {
    assert BytesOf([]) == [];
  }
}
