/** The memory the branch threads share, and what one step of a thread does to it
    (src/branch.c, src/grouper.c, src/groupfilter.c). A thread holds a reference to
    its branch and reaches everything else through it, so nothing but the
    references themselves keeps threads apart. */
module SharedMemory {
  import opened Cooked
  import opened Query
  import opened Sorting
  import opened Trace

  type Slots = seq<Record?>

  /** The fields of a branch, with its reference to its array of record pointers. */
  datatype Cell = Cell(query: BranchQuery, pointers: array<Record?>, count: nat,
                       grouperResult: GrouperResult, gfilterResult: seq<GroupView>)

  /** Array contents, branch fields, and the store of shared records. */
  datatype Memory = Memory(arrays: map<array<Record?>, Slots>, cells: map<Branch, Cell>, store: seq<Record>)

  /** Where a thread is. While `qsort_r` runs it has only promised to put the
      records of `before` back; `members` is the group the scan is growing. */
  datatype Pc =
    | Begin
    | Sorting(l: nat, before: seq<Record>)
    | Marking(l: nat)
    | NextItem(l: nat, current: nat, clauseGroups: seq<GroupView>)
    | Scanning(l: nat, current: nat, members: seq<Record>, clauseGroups: seq<GroupView>)
    | Returning
    | Filtering(i: nat, kept: seq<GroupView>)
    | Exited

  /** A thread's own stack: its branch, its place, and the result it is building. */
  datatype Thread = Thread(branch: Branch, pc: Pc, res: GrouperResult)

  // ---- following references ----

  /** What a thread reaches from its branch. */
  datatype Own = Own(cell: Cell, slots: Slots)

  ghost predicate Wired(m: Memory, b: Branch) {
    && b in m.cells && m.cells[b].pointers in m.arrays
    && m.cells[b].count < |m.arrays[m.cells[b].pointers]|
  }

  ghost function Reach(m: Memory, b: Branch): Own
    requires Wired(m, b)
  {
    Own(m.cells[b], m.arrays[m.cells[b].pointers])
  }

  /** Writing through the branch's references. */
  ghost function WriteBack(m: Memory, b: Branch, own: Own): Memory
    requires Wired(m, b)
  {
    m.(arrays := m.arrays[m.cells[b].pointers := own.slots], cells := m.cells[b := own.cell])
  }

  ghost predicate Pointing(slots: Slots, n: nat) {
    n <= |slots| && forall i :: 0 <= i < n ==> slots[i] != null
  }

  /** The records the first n slots point to. */
  ghost function Pointers(slots: Slots, n: nat): (s: seq<Record>)
    requires Pointing(slots, n)
    ensures |s| == n && forall i :: 0 <= i < n ==> s[i] == slots[i]
  {
    seq(n, i requires 0 <= i < n => slots[i])
  }

  ghost predicate Readable(store: seq<Record>, rs: seq<Record>) {
    forall r :: r in rs ==> r in store
  }

  // ---- steps ----

  /** Entering the grouper: nothing to group, one group of everything, or the
      first clause. */
  ghost predicate BeginStep(io: Io, store: seq<Record>, own: Own, t: Thread, own': Own, t': Thread) {
    var q, n := own.cell.query, own.cell.count;
    own' == own &&
    if n == 0 then t' == t.(pc := Returning)
    else
      && Pointing(own.slots, n) && Readable(store, Pointers(own.slots, n))
      && if q.grouperClauses == [] then
           && |t'.res.groupset| == 1 && Finished(io, q, t'.res.groupset[0])
           && t'.res.groupset[0].members == Pointers(own.slots, n)
           && t' == t.(pc := Returning, res := GrouperResult(t'.res.groupset, [], []))
         else t' == t.(pc := Sorting(0, Pointers(own.slots, n)))
  }

  /** Inside `qsort_r`: anything may stand in the array, but never behind it; on
      return it holds the records it held before, sorted. */
  ghost predicate SortStep(own: Own, t: Thread, own': Own, t': Thread)
    requires t.pc.Sorting?
  {
    var q, n, l := own.cell.query, own.cell.count, t.pc.l;
    && l < |q.grouperClauses| && own'.cell == own.cell
    && n <= |own.slots| == |own'.slots| && own'.slots[n..] == own.slots[n..]
    && (t' == t || (
          && Pointing(own'.slots, n) && SortedBy(q.grouperClauses[l], Pointers(own'.slots, n))
          && multiset(Pointers(own'.slots, n)) == multiset(t.pc.before)
          && t' == t.(pc := Marking(l))))
  }

  /** The NULL behind the last record. */
  ghost predicate MarkStep(own: Own, t: Thread, own': Own, t': Thread)
    requires t.pc.Marking?
  {
    && own.cell.count < |own.slots| && own' == own.(slots := own.slots[own.cell.count := null])
    && t' == t.(pc := NextItem(t.pc.l, 0, []))
  }

  /** The head of the scan: at the NULL the clause is done, otherwise the record
      opens a group. */
  ghost predicate ItemStep(store: seq<Record>, own: Own, t: Thread, own': Own, t': Thread)
    requires t.pc.NextItem?
  {
    var l, current, gs := t.pc.l, t.pc.current, t.pc.clauseGroups;
    own' == own && current < |own.slots| &&
    if own.slots[current] != null then
      own.slots[current] in store && t' == t.(pc := Scanning(l, current, [own.slots[current]], gs))
    else
      && Pointing(own.slots, own.cell.count)
      && var s := Pointers(own.slots, own.cell.count);
      t' == t.(pc := AfterClause(own.cell.query, l, s),
               res := GrouperResult(t.res.groupset + gs, t.res.segments + [gs], t.res.sorted + [s]))
  }

  ghost function AfterClause(q: BranchQuery, l: nat, s: seq<Record>): Pc {
    if l + 1 < |q.grouperClauses| then Sorting(l + 1, s) else Returning
  }

  /** One comparison of the scan: the next record joins, or the group is finished
      and stored; so it is at the last record. */
  ghost predicate ScanStep(io: Io, store: seq<Record>, own: Own, t: Thread, own': Own, t': Thread)
    requires t.pc.Scanning?
  {
    var q, next := own.cell.query, t.pc.current + 1;
    && own' == own && t.pc.members != [] && t.pc.l < |q.grouperClauses|
    && if next == own.cell.count then CloseStep(io, q, t, t')
       else
         && next < |own.slots| && own.slots[next] != null && own.slots[next] in store
         && if ClauseJoins(q.grouperClauses[t.pc.l], t.pc.members, own.slots[next])
            then t' == t.(pc := t.pc.(current := next, members := t.pc.members + [own.slots[next]]))
            else CloseStep(io, q, t, t')
  }

  ghost predicate CloseStep(io: Io, q: BranchQuery, t: Thread, t': Thread)
    requires t.pc.Scanning?
  {
    && t'.pc.NextItem? && t'.pc.clauseGroups != []
    && var view := t'.pc.clauseGroups[|t'.pc.clauseGroups| - 1];
    && view.members == t.pc.members && Finished(io, q, view)
    && t' == t.(pc := NextItem(t.pc.l, t.pc.current + 1, t.pc.clauseGroups + [view]))
  }

  /** Back in `branch_start`: the groups become the branch's. */
  ghost predicate ReturnStep(own: Own, t: Thread, own': Own, t': Thread) {
    own' == own.(cell := own.cell.(grouperResult := t.res)) && t' == t.(pc := Filtering(0, []))
  }

  /** One group filtered, or all of them: then the filtered groups become the
      branch's and the thread exits. */
  ghost predicate FilterStepOf(own: Own, t: Thread, own': Own, t': Thread)
    requires t.pc.Filtering?
  {
    var groups, i := own.cell.grouperResult.groupset, t.pc.i;
    && i <= |groups|
    && if i == |groups| then
         own' == own.(cell := own.cell.(gfilterResult := t.pc.kept)) && t' == t.(pc := Exited)
       else
         && own' == own
         && t' == t.(pc := Filtering(i + 1, t.pc.kept
              + (if DnfMatches(own.cell.query.groupFilterClauses, groups[i].cooked) then [groups[i]] else [])))
  }

  /** One step on what the thread reaches. */
  ghost predicate OwnStep(io: Io, store: seq<Record>, own: Own, t: Thread, own': Own, t': Thread) {
    match t.pc
    case Begin => BeginStep(io, store, own, t, own', t')
    case Sorting(_, _) => SortStep(own, t, own', t')
    case Marking(_) => MarkStep(own, t, own', t')
    case NextItem(_, _, _) => ItemStep(store, own, t, own', t')
    case Scanning(_, _, _, _) => ScanStep(io, store, own, t, own', t')
    case Returning => ReturnStep(own, t, own', t')
    case Filtering(_, _) => FilterStepOf(own, t, own', t')
    case Exited => false
  }

  /** One step of a thread in the shared memory. */
  ghost predicate ThreadStep(io: Io, m: Memory, t: Thread, m': Memory, t': Thread) {
    && Wired(m, t.branch) && Wired(m', t.branch)
    && OwnStep(io, m.store, Reach(m, t.branch), t, Reach(m', t.branch), t')
    && m' == WriteBack(m, t.branch, Reach(m', t.branch))
  }

  /** A step never moves a thread to another branch, nor a branch to another
      array, and leaves every array as long as it was. */
  lemma StepShape(io: Io, store: seq<Record>, own: Own, t: Thread, own': Own, t': Thread)
    requires OwnStep(io, store, own, t, own', t')
    ensures t'.branch == t.branch && |own'.slots| == |own.slots|
    ensures own'.cell.query == own.cell.query && own'.cell.count == own.cell.count
    ensures own'.cell.pointers == own.cell.pointers
  {
    hide Finished, SortedBy, ClauseJoins, DnfMatches;
  }

  // ---- separation ----

  /** The two branches are different and so are their arrays. */
  ghost predicate Apart(m: Memory, b1: Branch, b2: Branch) {
    Wired(m, b1) && Wired(m, b2) && b1 != b2 && m.cells[b1].pointers != m.cells[b2].pointers
  }

  /** Writing through one branch does not show from a branch apart from it. */
  lemma ApartUntouched(m: Memory, b1: Branch, own: Own, b2: Branch)
    requires Apart(m, b1, b2) && own.cell.pointers == m.cells[b1].pointers && own.cell.count < |own.slots|
    ensures var m' := WriteBack(m, b1, own);
      Apart(m', b1, b2) && Reach(m', b1) == own && Reach(m', b2) == Reach(m, b2) && m'.store == m.store
  {
  }

  /** Without separation it does: one thread's end mark overwrites a record of the
      other. */
  lemma SharedArrayInterferes(io: Io, m: Memory, t: Thread, m': Memory, t': Thread, b2: Branch)
    requires ThreadStep(io, m, t, m', t') && t.pc.Marking? && Wired(m, b2) && b2 != t.branch
    requires m.cells[b2].pointers == m.cells[t.branch].pointers
    requires m.arrays[m.cells[b2].pointers][m.cells[t.branch].count] != null
    ensures Wired(m', b2) && Reach(m', b2) != Reach(m, b2)
  {
    var n := m.cells[t.branch].count;
    assert Reach(m', t.branch).slots[n] == null;
    assert Reach(m', b2).slots[n] == null;
  }
}
