/** One thread per branch in one shared memory (src/f.c, src/branch.c): a state
    machine for all interleavings of the branch threads and the main thread. */
module Threads {
  import opened BranchThread
  import opened Bytes
  import opened Cooked
  import opened Merger
  import opened Pipeline
  import opened Query
  import opened SharedMemory
  import opened Trace

  /** The whole engine after the trace is read: the memory, the threads' stacks,
      how many threads the main thread has created and joined, and the merger's
      result. */
  datatype Global = Global(memory: Memory, threads: seq<Thread>, created: nat, joined: nat,
                           merged: bool, tuples: seq<seq<GroupView>>)

  datatype Action = Create | JoinNext | MergeAll | Run(i: nat)

  ghost predicate AllWired(g: Global) {
    forall i :: 0 <= i < |g.threads| ==> Wired(g.memory, g.threads[i].branch)
  }

  /** What thread i reaches. */
  ghost function OwnOf(g: Global, i: nat): Own
    requires AllWired(g) && i < |g.threads|
  {
    Reach(g.memory, g.threads[i].branch)
  }

  ghost function KeptIn(g: Global): (ks: seq<Groups>)
    requires AllWired(g)
    ensures |ks| == |g.threads|
  {
    seq(|g.threads|, i requires 0 <= i < |g.threads| => OwnOf(g, i).cell.gfilterResult)
  }

  ghost function ResultsIn(g: Global): (rs: seq<GrouperResult>)
    requires AllWired(g)
    ensures |rs| == |g.threads|
  {
    seq(|g.threads|, i requires 0 <= i < |g.threads| => OwnOf(g, i).cell.grouperResult)
  }

  /** One step of the main thread or of a created branch thread. */
  ghost predicate Step(io: Io, cs: seq<MergerClause>, g: Global, action: Action, g': Global) {
    var n := |g.threads|;
    match action
    case Create => g.created < n && g' == g.(created := g.created + 1)
    case JoinNext =>
      g.created == n && g.joined < n && g.threads[g.joined].pc.Exited? && g' == g.(joined := g.joined + 1)
    case MergeAll =>
      && g.created == g.joined == n && !g.merged && AllWired(g)
      && g' == g.(merged := true, tuples := Join(KeptIn(g), AcceptsTest(cs)))
    case Run(i) =>
      && i < g.created && i < n == |g'.threads|
      && ThreadStep(io, g.memory, g.threads[i], g'.memory, g'.threads[i])
      && g' == g.(memory := g'.memory, threads := g.threads[i := g'.threads[i]])
  }

  /** A run under an arbitrary schedule. */
  ghost predicate Schedule(io: Io, cs: seq<MergerClause>, states: seq<Global>, actions: seq<Action>) {
    && |states| == |actions| + 1
    && forall k :: 0 <= k < |actions| ==> Step(io, cs, states[k], actions[k], states[k + 1])
  }

  // ---- separation ----

  /** No two threads reach the same branch or the same array. */
  ghost predicate Separate(g: Global) {
    && AllWired(g)
    && forall i, j :: 0 <= i < |g.threads| && 0 <= j < |g.threads| && i != j ==>
      Apart(g.memory, g.threads[i].branch, g.threads[j].branch)
  }

  /** A step of thread i changes nothing any other thread reaches, nor the store,
      and leaves all threads separate. */
  lemma RunTouchesOwn(io: Io, cs: seq<MergerClause>, g: Global, i: nat, g': Global)
    requires Separate(g) && Step(io, cs, g, Run(i), g')
    ensures Separate(g') && g'.memory.store == g.memory.store
    ensures OwnStep(io, g.memory.store, OwnOf(g, i), g.threads[i], OwnOf(g', i), g'.threads[i])
    ensures forall j :: 0 <= j < |g.threads| && j != i ==> OwnOf(g', j) == OwnOf(g, j)
  {
    hide OwnStep;
    var b, own' := g.threads[i].branch, Reach(g'.memory, g.threads[i].branch);
    StepShape(io, g.memory.store, Reach(g.memory, b), g.threads[i], own', g'.threads[i]);
    assert forall j :: 0 <= j < |g.threads| ==> g'.threads[j].branch == g.threads[j].branch;
    forall j | 0 <= j < |g.threads| && j != i
      ensures Apart(g'.memory, b, g.threads[j].branch)
      ensures Reach(g'.memory, g.threads[j].branch) == Reach(g.memory, g.threads[j].branch)
    {
      ApartUntouched(g.memory, b, own', g.threads[j].branch);
    }
    forall j, k | 0 <= j < |g.threads| && 0 <= k < |g.threads| && j != k
      ensures Apart(g'.memory, g.threads[j].branch, g.threads[k].branch)
    {
      assert Apart(g.memory, g.threads[j].branch, g.threads[k].branch);
      assert j != i ==> Apart(g'.memory, b, g.threads[j].branch);
      assert k != i ==> Apart(g'.memory, b, g.threads[k].branch);
    }
  }

  lemma StepSeparate(io: Io, cs: seq<MergerClause>, g: Global, action: Action, g': Global)
    requires Separate(g) && Step(io, cs, g, action, g')
    ensures Separate(g') && |g'.threads| == |g.threads| && g'.memory.store == g.memory.store
    ensures forall i :: 0 <= i < |g.threads| ==> g'.threads[i].branch == g.threads[i].branch
    ensures forall i :: 0 <= i < |g.threads| && action != Run(i) ==>
      g'.threads[i] == g.threads[i] && OwnOf(g', i) == OwnOf(g, i)
  {
    hide ThreadStep, Apart;
    if action.Run? {
      RunTouchesOwn(io, cs, g, action.i, g');
      RunKeepsBranch(io, g.memory, g.threads[action.i], g'.memory, g'.threads[action.i]);
    }
  }

  lemma RunKeepsBranch(io: Io, m: Memory, t: Thread, m': Memory, t': Thread)
    requires ThreadStep(io, m, t, m', t')
    ensures t'.branch == t.branch
  {
    StepShape(io, m.store, Reach(m, t.branch), t, Reach(m', t.branch), t');
  }

  // ---- one branch alone ----

  /** The same memory, with thread t alone in it. */
  datatype Alone = Alone(memory: Memory, thread: Thread)

  ghost predicate AloneRun(io: Io, ss: seq<Alone>) {
    forall k :: 0 < k < |ss| ==> ThreadStep(io, ss[k - 1].memory, ss[k - 1].thread, ss[k].memory, ss[k].thread)
  }

  /** What thread i holds and reaches is as in the lone run. */
  ghost predicate Agrees(g: Global, i: nat, s: Alone) {
    && AllWired(g) && i < |g.threads| && s.thread == g.threads[i]
    && Wired(s.memory, s.thread.branch) && Reach(s.memory, s.thread.branch) == OwnOf(g, i)
    && s.memory.store == g.memory.store
  }

  /** A step of thread i among all others is a step it can take alone. */
  lemma StepAlone(io: Io, cs: seq<MergerClause>, g: Global, i: nat, g': Global, s: Alone) returns (s': Alone)
    requires Separate(g) && Step(io, cs, g, Run(i), g') && Agrees(g, i, s)
    ensures ThreadStep(io, s.memory, s.thread, s'.memory, s'.thread) && Agrees(g', i, s')
  {
    hide OwnStep, Apart;
    RunTouchesOwn(io, cs, g, i, g');
    var own' := OwnOf(g', i);
    StepShape(io, g.memory.store, OwnOf(g, i), g.threads[i], own', g'.threads[i]);
    s' := Alone(WriteBack(s.memory, s.thread.branch, own'), g'.threads[i]);
  }

  /** Schedule independence: from separate beginnings, whatever the schedule, what
      thread i goes through is a run of its branch alone in the same memory, and
      the branch ends with the same fields and the same array. */
  lemma {:induction false} ScheduleIndependence(io: Io, cs: seq<MergerClause>, states: seq<Global>,
                                                actions: seq<Action>, i: nat)
    returns (ss: seq<Alone>)
    requires Schedule(io, cs, states, actions) && Separate(states[0]) && i < |states[0].threads|
    ensures Separate(states[|actions|]) && |states[|actions|].threads| == |states[0].threads|
    ensures ss != [] && ss[0] == Alone(states[0].memory, states[0].threads[i])
    ensures AloneRun(io, ss) && Agrees(states[|actions|], i, ss[|ss| - 1])
    decreases |actions|
  {
    hide Step, ThreadStep, Separate;
    var n := |actions|;
    if n == 0 {
      SeparateIsWired(states[0]);
      ss := [Alone(states[0].memory, states[0].threads[i])];
    } else {
      var front, last := states[..n], actions[n - 1];
      assert Schedule(io, cs, front, actions[..n - 1]);
      ss := ScheduleIndependence(io, cs, front, actions[..n - 1], i);
      assert Step(io, cs, states[n - 1], last, states[n - 1 + 1]);
      StepSeparate(io, cs, states[n - 1], last, states[n]);
      SeparateIsWired(states[n]);
      if last == Run(i) {
        var s' := StepAlone(io, cs, states[n - 1], i, states[n], ss[|ss| - 1]);
        ss := ss + [s'];
      }
    }
  }

  lemma SeparateIsWired(g: Global)
    requires Separate(g)
    ensures AllWired(g)
  {
  }

  /** Neighbouring steps of different threads commute. */
  lemma StepsCommute(io: Io, cs: seq<MergerClause>, g: Global, i: nat, g1: Global, j: nat, g2: Global)
    returns (h: Global)
    requires Separate(g) && i != j && j < g.created
    requires Step(io, cs, g, Run(i), g1) && Step(io, cs, g1, Run(j), g2)
    ensures Step(io, cs, g, Run(j), h) && Step(io, cs, h, Run(i), g2)
  {
    hide OwnStep, Apart;
    RunTouchesOwn(io, cs, g, i, g1);
    RunTouchesOwn(io, cs, g1, j, g2);
    StepSeparate(io, cs, g, Run(i), g1);
    var bi, bj := g.threads[i].branch, g.threads[j].branch;
    var owni, ownj := OwnOf(g1, i), OwnOf(g2, j);
    StepShape(io, g.memory.store, OwnOf(g, j), g.threads[j], ownj, g2.threads[j]);
    StepShape(io, g.memory.store, OwnOf(g, i), g.threads[i], owni, g1.threads[i]);
    var m := WriteBack(g.memory, bj, ownj);
    WritesCommute(g.memory, bi, owni, bj, ownj);
    h := g.(memory := m, threads := g.threads[j := g2.threads[j]]);
    assert h.threads[i := g2.threads[i]] == g2.threads;
  }

  lemma WritesCommute(m: Memory, b1: Branch, own1: Own, b2: Branch, own2: Own)
    requires Apart(m, b1, b2)
    requires own1.cell.pointers == m.cells[b1].pointers && own1.cell.count < |own1.slots|
    requires own2.cell.pointers == m.cells[b2].pointers && own2.cell.count < |own2.slots|
    ensures var m1, m2 := WriteBack(m, b1, own1), WriteBack(m, b2, own2);
      && Wired(m1, b2) && Wired(m2, b1) && WriteBack(m1, b2, own2) == WriteBack(m2, b1, own1)
      && Reach(m2, b2) == own2 && Reach(m2, b1) == Reach(m, b1)
      && Reach(WriteBack(m2, b1, own1), b1) == own1
  {
  }

  // ---- the beginning ----

  /** The memory `read_trace` leaves behind. */
  ghost function Snapshot(data: IoData, branches: seq<Branch>): Memory
    reads data, branches, set b | b in branches :: b.filteredRecordset
  {
    Memory(map a | a in ArraysOf(branches) :: a[..],
           map b | b in branches ::
             Cell(b.query, b.filteredRecordset, |b.filtered|, b.grouperResult, b.gfilterResult),
           data.recordset)
  }

  ghost function ArraysOf(branches: seq<Branch>): set<array<Record?>>
    reads branches
  {
    set b | b in branches :: b.filteredRecordset
  }

  /** No thread created yet; each will start with its branch. */
  ghost function Start(memory: Memory, branches: seq<Branch>): Global {
    Global(memory, seq(|branches|, i requires 0 <= i < |branches| =>
                         Thread(branches[i], Begin, GrouperResult([], [], []))), 0, 0, false, [])
  }

  /** What `read_trace` promises is what the threads need to be separate. */
  lemma StartSeparate(data: IoData, branches: seq<Branch>)
    requires Distinct(branches) && SeparateArrays(branches)
    requires forall i :: 0 <= i < |branches| ==> Terminated(branches[i])
    ensures Separate(Start(Snapshot(data, branches), branches))
  {
    hide Snapshot, Terminated;
    var m := Snapshot(data, branches);
    forall i | 0 <= i < |branches|
      ensures Wired(m, branches[i]) && m.cells[branches[i]].pointers == branches[i].filteredRecordset
    {
      SnapshotReach(data, branches, i);
    }
  }

  // ---- what all threads together keep ----

  ghost predicate AllLocal(io: Io, qs: seq<BranchQuery>, filtereds: seq<seq<Record>>, g: Global)
    requires AllWired(g)
  {
    && |g.threads| == |qs| == |filtereds|
    && forall i :: 0 <= i < |qs| ==>
      OwnOf(g, i).cell.query == qs[i] && LocalInv(io, g.memory.store, filtereds[i], OwnOf(g, i), g.threads[i])
  }

  ghost predicate GlobalInv(io: Io, qs: seq<BranchQuery>, cs: seq<MergerClause>, filtereds: seq<seq<Record>>,
                            g: Global) {
    && Separate(g) && AllLocal(io, qs, filtereds, g)
    && g.joined <= g.created <= |qs| && (g.joined > 0 ==> g.created == |qs|)
    && (forall i :: 0 <= i < g.joined ==> g.threads[i].pc.Exited?)
    && (g.merged ==> g.joined == |qs| && g.tuples == Join(KeptIn(g), AcceptsTest(cs)))
  }

  /** What a branch's thread finds when it starts. */
  lemma SnapshotReach(data: IoData, branches: seq<Branch>, i: nat)
    requires i < |branches| && Terminated(branches[i])
    ensures var m, b := Snapshot(data, branches), branches[i];
      && m.store == data.recordset && Wired(m, b)
      && Reach(m, b) == Own(Cell(b.query, b.filteredRecordset, |b.filtered|, b.grouperResult, b.gfilterResult),
                            b.filteredRecordset[..])
  {
    assert branches[i] in branches && branches[i].filteredRecordset in ArraysOf(branches);
  }

  lemma BeginInv(io: Io, store: seq<Record>, filtered: seq<Record>, own: Own, t: Thread)
    requires own.cell.count == |filtered| && |own.slots| == |filtered| + 1 && Readable(store, filtered)
    requires forall k :: 0 <= k < |filtered| ==> own.slots[k] == filtered[k]
    requires t.pc.Begin? && t.res == GrouperResult([], [], [])
    ensures LocalInv(io, store, filtered, own, t)
  {
    assert Pointing(own.slots, |filtered|) && Pointers(own.slots, |filtered|) == filtered;
  }

  lemma FilteredReadable(css: seq<seq<FilterClause>>, trace: seq<seq<byte>>, store: seq<Record>,
                         filtereds: seq<seq<Record>>, i: nat)
    requires FannedOut(css, trace, store, filtereds) && i < |css|
    ensures Readable(store, filtereds[i])
  {
    forall r | r in filtereds[i]
      ensures r in store
    {
      FilteredIsRead(css, trace, store, filtereds, i, r);
    }
  }

  /** The thread of branch i starts as it should. */
  ghost predicate LocalStart(io: Io, m: Memory, b: Branch, q: BranchQuery, filtered: seq<Record>) {
    && Wired(m, b) && Reach(m, b).cell.query == q
    && LocalInv(io, m.store, filtered, Reach(m, b), Thread(b, Begin, GrouperResult([], [], [])))
  }

  lemma StartLocal(io: Io, data: IoData, branches: seq<Branch>, i: nat)
    requires i < |branches| && Terminated(branches[i]) && Readable(data.recordset, branches[i].filtered)
    ensures LocalStart(io, Snapshot(data, branches), branches[i], branches[i].query, branches[i].filtered)
  {
    hide Snapshot, LocalInv, Readable;
    var m, b := Snapshot(data, branches), branches[i];
    SnapshotReach(data, branches, i);
    BeginInv(io, m.store, b.filtered, Reach(m, b), Thread(b, Begin, GrouperResult([], [], [])));
  }

  /** After `read_trace` everything is as the threads need it. */
  lemma StartInv(io: Io, cs: seq<MergerClause>, trace: seq<seq<byte>>, data: IoData, branches: seq<Branch>)
    requires Distinct(branches) && SeparateArrays(branches)
    requires forall i :: 0 <= i < |branches| ==> Terminated(branches[i])
    requires FannedOut(FiltersOf(branches), trace, data.recordset, FilteredOf(branches))
    ensures GlobalInv(io, QueriesOf(branches), cs, FilteredOf(branches), Start(Snapshot(data, branches), branches))
  {
    hide FannedOut, LocalStart, Snapshot, SeparateArrays, Distinct, Terminated, FilteredOf, Readable;
    StartSeparate(data, branches);
    forall i | 0 <= i < |branches|
      ensures LocalStart(io, Snapshot(data, branches), branches[i], branches[i].query, branches[i].filtered)
    {
      FilteredReadable(FiltersOf(branches), trace, data.recordset, FilteredOf(branches), i);
      StartLocal(io, data, branches, i);
    }
    LocalsStart(io, QueriesOf(branches), cs, FilteredOf(branches), Snapshot(data, branches), branches);
  }

  lemma LocalsStart(io: Io, qs: seq<BranchQuery>, cs: seq<MergerClause>, filtereds: seq<seq<Record>>,
                    m: Memory, branches: seq<Branch>)
    requires |qs| == |filtereds| == |branches| && Separate(Start(m, branches))
    requires forall i :: 0 <= i < |branches| ==> LocalStart(io, m, branches[i], qs[i], filtereds[i])
    ensures GlobalInv(io, qs, cs, filtereds, Start(m, branches))
  {
    hide LocalInv, Apart, Join;
    forall i | 0 <= i < |branches|
      ensures OwnOf(Start(m, branches), i).cell.query == qs[i]
      ensures LocalInv(io, m.store, filtereds[i], OwnOf(Start(m, branches), i), Start(m, branches).threads[i])
    {
      assert LocalStart(io, m, branches[i], qs[i], filtereds[i]);
    }
  }

  lemma StepKeepsInv(io: Io, qs: seq<BranchQuery>, cs: seq<MergerClause>, filtereds: seq<seq<Record>>,
                     g: Global, action: Action, g': Global)
    requires GlobalInv(io, qs, cs, filtereds, g) && Step(io, cs, g, action, g')
    ensures GlobalInv(io, qs, cs, filtereds, g')
  {
    hide LocalInv, Join, OwnStep, Apart;
    StepSeparate(io, cs, g, action, g');
    if action.Run? {
      var i := action.i;
      RunTouchesOwn(io, cs, g, i, g');
      OwnStepKeeps(io, g.memory.store, filtereds[i], OwnOf(g, i), g.threads[i], OwnOf(g', i), g'.threads[i]);
      StepShape(io, g.memory.store, OwnOf(g, i), g.threads[i], OwnOf(g', i), g'.threads[i]);
      ExitedStays(io, g.memory.store, OwnOf(g, i), g.threads[i], OwnOf(g', i), g'.threads[i]);
    } else {
      assert action.Create? || action.JoinNext? ==> KeptIn(g') == KeptIn(g);
      assert KeptIn(g') == KeptIn(g);
    }
  }

  lemma ExitedStays(io: Io, store: seq<Record>, own: Own, t: Thread, own': Own, t': Thread)
    requires OwnStep(io, store, own, t, own', t')
    ensures !t.pc.Exited?
  {
  }

  lemma {:induction false} ScheduleKeepsInv(io: Io, qs: seq<BranchQuery>, cs: seq<MergerClause>,
                                            filtereds: seq<seq<Record>>, states: seq<Global>,
                                            actions: seq<Action>, k: nat)
    requires Schedule(io, cs, states, actions) && GlobalInv(io, qs, cs, filtereds, states[0]) && k < |states|
    ensures GlobalInv(io, qs, cs, filtereds, states[k])
  {
    hide Step, GlobalInv;
    if k > 0 {
      ScheduleKeepsInv(io, qs, cs, filtereds, states, actions, k - 1);
      StepKeepsInv(io, qs, cs, filtereds, states[k - 1], actions[k - 1], states[k - 1 + 1]);
    }
  }

  // ---- the end ----

  function StreamsOf(tuples: seq<seq<GroupView>>): (ss: seq<seq<Record>>)
    ensures |ss| == |tuples|
  {
    seq(|tuples|, i requires 0 <= i < |tuples| => StreamOf(tuples[i]))
  }

  /** Once the merger has run, every thread had exited, each branch holds an
      outcome of its own filtered records, and the merged tuples are the join of
      exactly these outcomes. */
  lemma MergedOutcome(io: Io, qs: seq<BranchQuery>, cs: seq<MergerClause>, filtereds: seq<seq<Record>>, g: Global)
    requires GlobalInv(io, qs, cs, filtereds, g) && g.merged
    ensures forall i :: 0 <= i < |qs| ==> g.threads[i].pc.Exited?
    ensures AllOutcomes(io, qs, filtereds, ResultsIn(g), KeptIn(g))
    ensures g.tuples == Join(KeptIn(g), AcceptsTest(cs))
  {
    hide Join, BranchOutcome, Separate;
    SeparateIsWired(g);
    forall i | 0 <= i < |qs|
      ensures BranchOutcome(io, qs[i], filtereds[i], ResultsIn(g)[i], KeptIn(g)[i])
    {
      assert g.threads[i].pc.Exited?;
    }
  }

  /** What is proved of a query's streams holds under every schedule: after
      `read_trace`, the tuples of any finished run of the threads, unfolded, are
      an outcome of the query. */
  lemma AnyScheduleAnswersTheQuery(io: Io, cs: seq<MergerClause>, trace: seq<seq<byte>>, data: IoData,
                                   branches: seq<Branch>, states: seq<Global>, actions: seq<Action>)
    requires Distinct(branches) && SeparateArrays(branches)
    requires forall i :: 0 <= i < |branches| ==> Terminated(branches[i])
    requires FannedOut(FiltersOf(branches), trace, data.recordset, FilteredOf(branches))
    requires Schedule(io, cs, states, actions) && states[0] == Start(Snapshot(data, branches), branches)
    requires states[|actions|].merged
    ensures var g := states[|actions|];
      AllWired(g) &&
      QueryOutcome(io, QueriesOf(branches), cs, trace, data.recordset, FilteredOf(branches),
                   ResultsIn(g), KeptIn(g), g.tuples, StreamsOf(g.tuples))
  {
    hide FannedOut, Step, Join, GlobalInv, AllOutcomes, Snapshot, Distinct, SeparateArrays, Terminated, FilteredOf;
    var g, qs, filtereds := states[|actions|], QueriesOf(branches), FilteredOf(branches);
    StartInv(io, cs, trace, data, branches);
    ScheduleKeepsInv(io, qs, cs, filtereds, states, actions, |actions|);
    InvIsWired(io, qs, cs, filtereds, g);
    MergedOutcome(io, qs, cs, filtereds, g);
    SameFilters(branches);
  }

  lemma InvIsWired(io: Io, qs: seq<BranchQuery>, cs: seq<MergerClause>, filtereds: seq<seq<Record>>, g: Global)
    requires GlobalInv(io, qs, cs, filtereds, g)
    ensures AllWired(g)
  {
  }

  /** After the merger nothing moves any more. */
  lemma NothingAfterMerge(io: Io, qs: seq<BranchQuery>, cs: seq<MergerClause>, filtereds: seq<seq<Record>>,
                          g: Global, action: Action, g': Global)
    requires GlobalInv(io, qs, cs, filtereds, g) && g.merged
    ensures !Step(io, cs, g, action, g')
  {
    hide LocalInv, Join, Separate;
  }

  // ---- the merger is always reached ----

  /** How far the engine is from the merger: threads to create, threads to join,
      and what is left of the next thread to join. */
  ghost function NextLeft(g: Global): (nat, nat, int)
    requires AllWired(g)
  {
    if g.joined < |g.threads| then Left(OwnOf(g, g.joined), g.threads[g.joined].pc) else (0, 0, 0)
  }

  ghost predicate Closer(g': Global, g: Global)
    requires AllWired(g) && AllWired(g')
  {
    && g.created <= g'.created && g.joined <= g'.joined && |g'.threads| == |g.threads|
    && (g.created < g'.created || g.joined < g'.joined
        || (!g.merged && g'.merged && g.joined == |g.threads|)
        || (g.merged == g'.merged && g.created == g'.created && g.joined == g'.joined
            && Less(NextLeft(g'), NextLeft(g))))
  }

  /** Until the merger has run there is a step that brings it closer. */
  lemma CanMove(io: Io, qs: seq<BranchQuery>, cs: seq<MergerClause>, filtereds: seq<seq<Record>>, g: Global)
    returns (action: Action, g': Global)
    requires GlobalInv(io, qs, cs, filtereds, g) && !g.merged
    requires forall i :: 0 <= i < |qs| ==> InBounds(io, qs[i])
    ensures Step(io, cs, g, action, g') && AllWired(g') && Closer(g', g)
    ensures !g'.merged || g'.joined == |qs|
  {
    hide LocalInv, Join, InBounds, Apart, OwnStep;
    if g.created < |qs| {
      action, g' := Create, g.(created := g.created + 1);
    } else if g.joined == |qs| {
      action, g' := MergeAll, g.(merged := true, tuples := Join(KeptIn(g), AcceptsTest(cs)));
    } else if g.threads[g.joined].pc.Exited? {
      action, g' := JoinNext, g.(joined := g.joined + 1);
    } else {
      var i := g.joined;
      var own', t' := CanAdvance(io, g.memory.store, filtereds[i], OwnOf(g, i), g.threads[i]);
      action, g' := Run(i), MovedThread(io, g, i, own', t');
      assert Step(io, cs, g, action, g');
      RunTouchesOwn(io, cs, g, i, g');
      RunKeepsBranch(io, g.memory, g.threads[i], g'.memory, g'.threads[i]);
    }
  }

  ghost function MovedThread(io: Io, g: Global, i: nat, own': Own, t': Thread): (g': Global)
    requires AllWired(g) && i < |g.threads|
    requires OwnStep(io, g.memory.store, OwnOf(g, i), g.threads[i], own', t')
    ensures |g'.threads| == |g.threads|
    ensures ThreadStep(io, g.memory, g.threads[i], g'.memory, g'.threads[i])
    ensures g' == g.(memory := g'.memory, threads := g.threads[i := t'])
    ensures Reach(g'.memory, g.threads[i].branch) == own'
  {
    StepShape(io, g.memory.store, OwnOf(g, i), g.threads[i], own', t');
    g.(memory := WriteBack(g.memory, g.threads[i].branch, own'), threads := g.threads[i := t'])
  }

  /** From every state any schedule can reach the merger can still be reached. */
  lemma {:induction false} CanFinish(io: Io, qs: seq<BranchQuery>, cs: seq<MergerClause>,
                                     filtereds: seq<seq<Record>>, g: Global)
    returns (states: seq<Global>, actions: seq<Action>)
    requires GlobalInv(io, qs, cs, filtereds, g) && forall i :: 0 <= i < |qs| ==> InBounds(io, qs[i])
    ensures Schedule(io, cs, states, actions) && states[0] == g && states[|actions|].merged
    decreases |qs| - g.created, |qs| - g.joined, NextLeft(g).0, NextLeft(g).1, NextLeft(g).2, !g.merged
  {
    hide Step, GlobalInv, InBounds, NextLeft;
    if g.merged {
      states, actions := [g], [];
    } else {
      InvBounds(io, qs, cs, filtereds, g);
      var action, g' := CanMove(io, qs, cs, filtereds, g);
      StepKeepsInv(io, qs, cs, filtereds, g, action, g');
      InvBounds(io, qs, cs, filtereds, g');
      NothingLeft(g);
      NothingLeft(g');
      var rest, more := CanFinish(io, qs, cs, filtereds, g');
      states, actions := [g] + rest, [action] + more;
    }
  }

  lemma InvBounds(io: Io, qs: seq<BranchQuery>, cs: seq<MergerClause>, filtereds: seq<seq<Record>>, g: Global)
    requires GlobalInv(io, qs, cs, filtereds, g)
    ensures AllWired(g) && |g.threads| == |qs| && g.joined <= g.created <= |qs|
  {
  }

  lemma NothingLeft(g: Global)
    requires AllWired(g)
    ensures g.joined >= |g.threads| ==> NextLeft(g) == (0, 0, 0)
  {
  }

  // ---- whatever a branch can do alone, some schedule lets it do ----

  lemma AppendSchedules(io: Io, cs: seq<MergerClause>, states: seq<Global>, actions: seq<Action>,
                        states': seq<Global>, actions': seq<Action>)
    requires Schedule(io, cs, states, actions) && Schedule(io, cs, states', actions')
    requires states[|actions|] == states'[0]
    ensures Schedule(io, cs, states[..|actions|] + states', actions + actions')
    ensures (states[..|actions|] + states')[0] == states[0]
    ensures (states[..|actions|] + states')[|actions| + |actions'|] == states'[|actions'|]
  {
    hide Step;
    var all, steps, n := states[..|actions|] + states', actions + actions', |actions|;
    forall k | 0 <= k < |steps|
      ensures Step(io, cs, all[k], steps[k], all[k + 1])
    {
      if k < n {
        assert Step(io, cs, states[k], actions[k], states[k + 1]);
      } else {
        assert Step(io, cs, states'[k - n], actions'[k - n], states'[k - n + 1]);
      }
    }
  }

  lemma {:induction false} CreateAll(io: Io, cs: seq<MergerClause>, g: Global)
    returns (states: seq<Global>, actions: seq<Action>)
    requires g.created <= |g.threads|
    ensures Schedule(io, cs, states, actions) && states[0] == g
    ensures states[|actions|] == g.(created := |g.threads|)
    decreases |g.threads| - g.created
  {
    if g.created == |g.threads| {
      states, actions := [g], [];
    } else {
      var g' := g.(created := g.created + 1);
      assert Step(io, cs, g, Create, g');
      var rest, more := CreateAll(io, cs, g');
      hide Step;
      states, actions := [g] + rest, [Create] + more;
    }
  }

  /** A lone run is a schedule in which only that thread moves. */
  lemma LoneRunIsSchedule(io: Io, cs: seq<MergerClause>, g: Global, i: nat, ss: seq<Alone>)
    returns (states: seq<Global>, actions: seq<Action>)
    requires AloneRun(io, ss) && i < g.created && i < |g.threads|
    requires ss != [] && ss[0] == Alone(g.memory, g.threads[i])
    ensures Schedule(io, cs, states, actions) && states[0] == g
    ensures var end := ss[|ss| - 1];
      states[|actions|] == g.(memory := end.memory, threads := g.threads[i := end.thread])
  {
    hide ThreadStep;
    states := seq(|ss|, k requires 0 <= k < |ss| =>
      g.(memory := ss[k].memory, threads := g.threads[i := ss[k].thread]));
    actions := seq(|ss| - 1, k => Run(i));
    forall k | 0 <= k < |actions|
      ensures Step(io, cs, states[k], actions[k], states[k + 1])
    {
      assert ThreadStep(io, ss[k + 1 - 1].memory, ss[k + 1 - 1].thread, ss[k + 1].memory, ss[k + 1].thread);
      assert states[k + 1].threads == states[k].threads[i := ss[k + 1].thread];
    }
    assert g.threads[i := g.threads[i]] == g.threads;
  }

  /** What an exited thread leaves behind stays as it is. */
  lemma {:induction false} ExitedForGood(io: Io, cs: seq<MergerClause>, states: seq<Global>,
                                         actions: seq<Action>, i: nat)
    requires Schedule(io, cs, states, actions) && Separate(states[0])
    requires i < |states[0].threads| && states[0].threads[i].pc.Exited?
    ensures Separate(states[|actions|]) && |states[|actions|].threads| == |states[0].threads|
    ensures states[|actions|].threads[i] == states[0].threads[i]
    ensures OwnOf(states[|actions|], i) == OwnOf(states[0], i)
    decreases |actions|
  {
    hide Step, Separate, Reach;
    var n := |actions|;
    SeparateIsWired(states[0]);
    if n > 0 {
      var front := states[..n];
      assert Schedule(io, cs, front, actions[..n - 1]);
      ExitedForGood(io, cs, front, actions[..n - 1], i);
      assert Step(io, cs, states[n - 1], actions[n - 1], states[n - 1 + 1]);
      SeparateIsWired(states[n - 1]);
      ExitedCannotRun(io, cs, states[n - 1], i, states[n]);
      StepSeparate(io, cs, states[n - 1], actions[n - 1], states[n]);
      SeparateIsWired(states[n]);
    }
  }

  lemma ExitedCannotRun(io: Io, cs: seq<MergerClause>, g: Global, i: nat, g': Global)
    requires i < |g.threads| && g.threads[i].pc.Exited?
    ensures !Step(io, cs, g, Run(i), g')
  {
  }

  /** Every outcome a branch has alone is its outcome in some finished schedule;
      with `ScheduleIndependence`, the schedules and the lone runs of a branch
      have the same outcomes. */
  lemma LoneOutcomeReached(io: Io, qs: seq<BranchQuery>, cs: seq<MergerClause>, filtereds: seq<seq<Record>>,
                           g: Global, i: nat, ss: seq<Alone>)
    returns (states: seq<Global>, actions: seq<Action>)
    requires GlobalInv(io, qs, cs, filtereds, g) && forall i :: 0 <= i < |qs| ==> InBounds(io, qs[i])
    requires i < |qs| && AloneRun(io, ss) && ss != [] && ss[0] == Alone(g.memory, g.threads[i])
    requires var end := ss[|ss| - 1]; end.thread.pc.Exited? && Wired(end.memory, end.thread.branch)
    ensures Schedule(io, cs, states, actions) && states[0] == g
    ensures states[|actions|].merged && Agrees(states[|actions|], i, ss[|ss| - 1])
  {
    hide Step, GlobalInv, InBounds, Separate, AloneRun;
    InvBounds(io, qs, cs, filtereds, g);
    var end := ss[|ss| - 1];
    var s1, a1 := CreateAll(io, cs, g);
    var s2, a2 := LoneRunIsSchedule(io, cs, s1[|a1|], i, ss);
    AppendSchedules(io, cs, s1, a1, s2, a2);
    states, actions := s1[..|a1|] + s2, a1 + a2;
    var mid := states[|actions|];
    ScheduleKeepsInv(io, qs, cs, filtereds, states, actions, |actions|);
    InvBounds(io, qs, cs, filtereds, mid);
    var s3, a3 := CanFinish(io, qs, cs, filtereds, mid);
    InvSeparate(io, qs, cs, filtereds, mid);
    ExitedForGood(io, cs, s3, a3, i);
    StoreStays(io, cs, s3, a3);
    AppendSchedules(io, cs, states, actions, s3, a3);
    states, actions := states[..|actions|] + s3, actions + a3;
    SeparateIsWired(s3[|a3|]);
  }

  lemma InvSeparate(io: Io, qs: seq<BranchQuery>, cs: seq<MergerClause>, filtereds: seq<seq<Record>>, g: Global)
    requires GlobalInv(io, qs, cs, filtereds, g)
    ensures Separate(g)
  {
  }

  lemma {:induction false} StoreStays(io: Io, cs: seq<MergerClause>, states: seq<Global>, actions: seq<Action>)
    requires Schedule(io, cs, states, actions) && Separate(states[0])
    ensures Separate(states[|actions|]) && states[|actions|].memory.store == states[0].memory.store
    decreases |actions|
  {
    hide Step, Separate;
    var n := |actions|;
    if n > 0 {
      assert Schedule(io, cs, states[..n], actions[..n - 1]);
      StoreStays(io, cs, states[..n], actions[..n - 1]);
      assert Step(io, cs, states[n - 1], actions[n - 1], states[n - 1 + 1]);
      StepSeparate(io, cs, states[n - 1], actions[n - 1], states[n]);
    }
  }
}
