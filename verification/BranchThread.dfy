/** One branch's thread on its own: what every step keeps, and that it can always
    go on until it exits (src/branch.c). */
module BranchThread {
  import opened Cooked
  import opened Grouper
  import opened Pipeline
  import opened Query
  import opened Seqs
  import opened SharedMemory
  import opened Sorting

  /** The clauses before the l-th are grouped. */
  ghost predicate ClausesDone(io: Io, q: BranchQuery, filtered: seq<Record>, res: GrouperResult, l: nat) {
    && |res.segments| == |res.sorted| == l <= |q.grouperClauses| && res.groupset == Flatten(res.segments)
    && forall k :: 0 <= k < l ==>
      ClauseGroups(io, q, q.grouperClauses[k], filtered, res.sorted[k], res.segments[k])
  }

  /** Inside the l-th clause, after the ones before it. */
  ghost predicate InClause(io: Io, q: BranchQuery, filtered: seq<Record>, res: GrouperResult, l: nat) {
    l < |q.grouperClauses| && filtered != [] && ClausesDone(io, q, filtered, res, l)
  }

  /** The array holds a permutation of the filtered records, sorted for the l-th
      clause. */
  ghost predicate SortedFor(filtered: seq<Record>, own: Own, l: nat) {
    && l < |own.cell.query.grouperClauses| && Pointing(own.slots, own.cell.count)
    && multiset(Pointers(own.slots, own.cell.count)) == multiset(filtered)
    && SortedBy(own.cell.query.grouperClauses[l], Pointers(own.slots, own.cell.count))
  }

  /** The scan of the l-th clause has dealt with the records before `current`. */
  ghost predicate ScannedTo(io: Io, filtered: seq<Record>, own: Own, l: nat, current: nat, gs: seq<GroupView>) {
    && SortedFor(filtered, own, l) && own.slots[own.cell.count..] == [null]
    && Scanned(own.cell.query.grouperClauses[l], Pointers(own.slots, own.cell.count), current, gs)
    && AllFinished(io, own.cell.query, gs)
  }

  /** `members` are the records from `first` to `current`, each of which joined
      those before it. */
  ghost predicate GrownTo(c: GrouperClause, s: seq<Record>, first: nat, current: nat, members: seq<Record>) {
    && first <= current < |s| && members == s[first..current + 1]
    && forall k :: first < k <= current ==> JoinedAt(c, s, first, k)
  }

  /** What holds between any two steps of a branch's thread. */
  ghost predicate LocalInv(io: Io, store: seq<Record>, filtered: seq<Record>, own: Own, t: Thread) {
    var q, n := own.cell.query, own.cell.count;
    && n == |filtered| && |own.slots| == n + 1 && Readable(store, filtered)
    && match t.pc
       case Begin =>
         Pointing(own.slots, n) && Pointers(own.slots, n) == filtered && t.res == GrouperResult([], [], [])
       case Sorting(l, before) =>
         InClause(io, q, filtered, t.res, l) && multiset(before) == multiset(filtered)
       case Marking(l) =>
         InClause(io, q, filtered, t.res, l) && SortedFor(filtered, own, l)
       case NextItem(l, current, gs) =>
         InClause(io, q, filtered, t.res, l) && current <= n && ScannedTo(io, filtered, own, l, current, gs)
       case Scanning(l, current, members, gs) =>
         && InClause(io, q, filtered, t.res, l) && 1 <= |members| <= current + 1
         && ScannedTo(io, filtered, own, l, current + 1 - |members|, gs)
         && GrownTo(q.grouperClauses[l], Pointers(own.slots, n), current + 1 - |members|, current, members)
       case Returning => Grouped(io, q, filtered, t.res.groupset, t.res.segments, t.res.sorted)
       case Filtering(i, kept) =>
         && GroupedCell(io, filtered, own.cell) && i <= |own.cell.grouperResult.groupset|
         && kept == Filter(own.cell.grouperResult.groupset[..i], Passes(q.groupFilterClauses))
       case Exited => BranchOutcome(io, q, filtered, own.cell.grouperResult, own.cell.gfilterResult)
  }

  ghost predicate GroupedCell(io: Io, filtered: seq<Record>, cell: Cell) {
    Grouped(io, cell.query, filtered, cell.grouperResult.groupset, cell.grouperResult.segments,
            cell.grouperResult.sorted)
  }

  // ---- every step keeps it ----

  lemma BeginKeeps(io: Io, store: seq<Record>, filtered: seq<Record>, own: Own, t: Thread, own': Own, t': Thread)
    requires LocalInv(io, store, filtered, own, t) && t.pc.Begin?
    requires BeginStep(io, store, own, t, own', t')
    ensures LocalInv(io, store, filtered, own', t')
  {
    hide Finished;
  }

  lemma SortKeeps(io: Io, store: seq<Record>, filtered: seq<Record>, own: Own, t: Thread, own': Own, t': Thread)
    requires LocalInv(io, store, filtered, own, t) && t.pc.Sorting?
    requires SortStep(own, t, own', t')
    ensures LocalInv(io, store, filtered, own', t')
  {
    hide ClausesDone, SortedBy;
  }

  lemma MarkKeeps(io: Io, store: seq<Record>, filtered: seq<Record>, own: Own, t: Thread, own': Own, t': Thread)
    requires LocalInv(io, store, filtered, own, t) && t.pc.Marking?
    requires MarkStep(own, t, own', t')
    ensures LocalInv(io, store, filtered, own', t')
  {
    hide ClausesDone, SortedBy, Scanned, AllFinished;
    var n := own.cell.count;
    assert Pointers(own'.slots, n) == Pointers(own.slots, n);
    NothingScanned(io, own.cell.query, own.cell.query.grouperClauses[t.pc.l], Pointers(own.slots, n));
  }

  lemma ItemKeeps(io: Io, store: seq<Record>, filtered: seq<Record>, own: Own, t: Thread, own': Own, t': Thread)
    requires LocalInv(io, store, filtered, own, t) && t.pc.NextItem?
    requires ItemStep(store, own, t, own', t')
    ensures LocalInv(io, store, filtered, own', t')
  {
    hide ClausesDone, SortedBy, Scanned, AllFinished, Grouped;
    var n, current := own.cell.count, t.pc.current;
    var s := Pointers(own.slots, n);
    assert own.slots[n] == own.slots[n..][0] == null;
    if own.slots[current] != null {
      assert s[current..current + 1] == [s[current]];
    } else {
      ClauseFinished(io, filtered, own, t);
    }
  }

  /** The scan has reached the end of the sorted array. */
  lemma ClauseFinished(io: Io, filtered: seq<Record>, own: Own, t: Thread)
    requires t.pc.NextItem? && InClause(io, own.cell.query, filtered, t.res, t.pc.l)
    requires ScannedTo(io, filtered, own, t.pc.l, own.cell.count, t.pc.clauseGroups)
    ensures var gs, s, l := t.pc.clauseGroups, Pointers(own.slots, own.cell.count), t.pc.l;
      var res := GrouperResult(t.res.groupset + gs, t.res.segments + [gs], t.res.sorted + [s]);
      && ClausesDone(io, own.cell.query, filtered, res, l + 1)
      && (l + 1 == |own.cell.query.grouperClauses| ==>
            Grouped(io, own.cell.query, filtered, res.groupset, res.segments, res.sorted))
  {
    hide ClauseGroups, Scanned, AllFinished, SortedBy;
    ScannedAll(io, own.cell.query, own.cell.query.grouperClauses[t.pc.l], filtered,
               Pointers(own.slots, own.cell.count), t.pc.clauseGroups);
    FlattenSnoc(t.res.segments, t.pc.clauseGroups);
  }

  lemma ScanKeeps(io: Io, store: seq<Record>, filtered: seq<Record>, own: Own, t: Thread, own': Own, t': Thread)
    requires LocalInv(io, store, filtered, own, t) && t.pc.Scanning?
    requires ScanStep(io, store, own, t, own', t')
    ensures LocalInv(io, store, filtered, own', t')
  {
    hide ClausesDone, SortedBy, Scanned, AllFinished, Finished, TermJoins;
    var c, s, current := own.cell.query.grouperClauses[t.pc.l], Pointers(own.slots, own.cell.count), t.pc.current;
    var first := current + 1 - |t.pc.members|;
    if current + 1 < own.cell.count {
      assert JoinedAt(c, s, first, current + 1) <==> ClauseJoins(c, t.pc.members, s[current + 1]);
      assert t.pc.members + [s[current + 1]] == s[first..current + 2];
    }
    if t'.pc.NextItem? {
      var view := t'.pc.clauseGroups[|t'.pc.clauseGroups| - 1];
      assert RunEnds(c, s, first, current);
      ScannedMore(c, s, first, t.pc.clauseGroups, view, current);
      OneMoreFinished(io, own.cell.query, t.pc.clauseGroups, view);
    }
  }

  lemma FilterKeeps(io: Io, store: seq<Record>, filtered: seq<Record>, own: Own, t: Thread, own': Own, t': Thread)
    requires LocalInv(io, store, filtered, own, t) && t.pc.Filtering?
    requires FilterStepOf(own, t, own', t')
    ensures LocalInv(io, store, filtered, own', t')
  {
    hide Grouped, DnfMatches;
    var groups := own.cell.grouperResult.groupset;
    if t.pc.i == |groups| {
      assert groups[..t.pc.i] == groups;
    } else {
      FilterStep(groups, Passes(own.cell.query.groupFilterClauses), t.pc.i);
    }
  }

  /** Whatever step the thread takes: its array keeps a permutation of its
      filtered records, apart from the time it is inside the sort, and its results
      are those of the stages behind it. */
  lemma OwnStepKeeps(io: Io, store: seq<Record>, filtered: seq<Record>, own: Own, t: Thread, own': Own, t': Thread)
    requires LocalInv(io, store, filtered, own, t) && OwnStep(io, store, own, t, own', t')
    ensures LocalInv(io, store, filtered, own', t')
  {
    hide LocalInv, BeginStep, SortStep, MarkStep, ItemStep, ScanStep, FilterStepOf;
    match t.pc
    case Begin => BeginKeeps(io, store, filtered, own, t, own', t');
    case Sorting(_, _) => SortKeeps(io, store, filtered, own, t, own', t');
    case Marking(_) => MarkKeeps(io, store, filtered, own, t, own', t');
    case NextItem(_, _, _) => ItemKeeps(io, store, filtered, own, t, own', t');
    case Scanning(_, _, _, _) => ScanKeeps(io, store, filtered, own, t, own', t');
    case Returning => ReturnKeeps(io, store, filtered, own, t, own', t');
    case Filtering(_, _) => FilterKeeps(io, store, filtered, own, t, own', t');
    case Exited =>
  }

  lemma ReturnKeeps(io: Io, store: seq<Record>, filtered: seq<Record>, own: Own, t: Thread, own': Own, t': Thread)
    requires LocalInv(io, store, filtered, own, t) && t.pc.Returning?
    requires ReturnStep(own, t, own', t')
    ensures LocalInv(io, store, filtered, own', t')
  {
    hide Grouped;
    assert own'.cell.grouperResult.groupset[..0] == [];
  }

  // ---- it can always go on ----

  /** How far a thread is from its exit, to be compared lexicographically: clauses
      and stages left, phases left in the clause, items left in the phase. */
  ghost function Left(own: Own, pc: Pc): (nat, nat, int) {
    var clauses, n := |own.cell.query.grouperClauses|, own.cell.count;
    match pc
    case Begin => (clauses + 3, 0, 0)
    case Sorting(l, _) => (if l <= clauses then clauses - l + 2 else 0, 2, 0)
    case Marking(l) => (if l <= clauses then clauses - l + 2 else 0, 1, 0)
    case NextItem(l, current, _) => (if l <= clauses then clauses - l + 2 else 0, 0, 2 * (n - current) + 1)
    case Scanning(l, current, _, _) => (if l <= clauses then clauses - l + 2 else 0, 0, 2 * (n - current))
    case Returning => (2, 0, 0)
    case Filtering(i, _) => (1, 0, |own.cell.grouperResult.groupset| - i)
    case Exited => (0, 0, 0)
  }

  ghost predicate Less(a: (nat, nat, int), b: (nat, nat, int)) {
    a.0 < b.0 || (a.0 == b.0 && (a.1 < b.1 || (a.1 == b.1 && 0 <= a.2 < b.2)))
  }

  /** A step that brings the thread closer to its exit. */
  ghost predicate Advances(io: Io, store: seq<Record>, own: Own, t: Thread, own': Own, t': Thread) {
    OwnStep(io, store, own, t, own', t') && Less(Left(own', t'.pc), Left(own, t.pc))
  }

  lemma BeginAdvances(io: Io, store: seq<Record>, filtered: seq<Record>, own: Own, t: Thread) returns (t': Thread)
    requires LocalInv(io, store, filtered, own, t) && t.pc.Begin? && InBounds(io, own.cell.query)
    ensures Advances(io, store, own, t, own, t')
  {
    hide Finished, InBounds;
    if filtered == [] {
      t' := t.(pc := Returning);
    } else if own.cell.query.grouperClauses == [] {
      var view := FinishExists(io, own.cell.query, filtered);
      t' := t.(pc := Returning, res := GrouperResult([view], [], []));
    } else {
      t' := t.(pc := Sorting(0, filtered));
    }
  }

  lemma SortAdvances(io: Io, store: seq<Record>, filtered: seq<Record>, own: Own, t: Thread)
    returns (own': Own, t': Thread)
    requires LocalInv(io, store, filtered, own, t) && t.pc.Sorting?
    ensures Advances(io, store, own, t, own', t')
  {
    hide ClausesDone, SortedBy;
    var n := own.cell.count;
    var s := SortExists(own.cell.query.grouperClauses[t.pc.l], t.pc.before);
    assert |multiset(s)| == |multiset(filtered)|;
    var slots: Slots := s;
    own', t' := own.(slots := slots + own.slots[n..]), t.(pc := Marking(t.pc.l));
    assert Pointers(own'.slots, n) == s;
  }

  lemma ItemAdvances(io: Io, store: seq<Record>, filtered: seq<Record>, own: Own, t: Thread) returns (t': Thread)
    requires LocalInv(io, store, filtered, own, t) && t.pc.NextItem?
    ensures Advances(io, store, own, t, own, t')
  {
    hide ClausesDone, SortedBy, Scanned, AllFinished;
    var q, n, l, current, gs := own.cell.query, own.cell.count, t.pc.l, t.pc.current, t.pc.clauseGroups;
    var s := Pointers(own.slots, n);
    assert own.slots[n] == own.slots[n..][0] == null;
    if current < n {
      AllReadable(store, filtered, s);
      t' := t.(pc := Scanning(l, current, [s[current]], gs));
    } else {
      t' := t.(pc := AfterClause(q, l, s),
               res := GrouperResult(t.res.groupset + gs, t.res.segments + [gs], t.res.sorted + [s]));
    }
  }

  lemma AllReadable(store: seq<Record>, filtered: seq<Record>, s: seq<Record>)
    requires Readable(store, filtered) && multiset(s) == multiset(filtered)
    ensures Readable(store, s)
  {
    forall r | r in s
      ensures r in store
    {
      assert r in multiset(s);
      assert r in filtered;
    }
  }

  lemma ScanAdvances(io: Io, store: seq<Record>, filtered: seq<Record>, own: Own, t: Thread) returns (t': Thread)
    requires LocalInv(io, store, filtered, own, t) && t.pc.Scanning? && InBounds(io, own.cell.query)
    ensures Advances(io, store, own, t, own, t')
  {
    hide ClausesDone, SortedBy, Scanned, AllFinished, Finished, InBounds, ClauseJoins;
    var q, s, next := own.cell.query, Pointers(own.slots, own.cell.count), t.pc.current + 1;
    AllReadable(store, filtered, s);
    if next < own.cell.count && ClauseJoins(q.grouperClauses[t.pc.l], t.pc.members, s[next]) {
      t' := t.(pc := t.pc.(current := next, members := t.pc.members + [s[next]]));
    } else {
      var view := FinishExists(io, q, t.pc.members);
      t' := t.(pc := NextItem(t.pc.l, next, t.pc.clauseGroups + [view]));
    }
  }

  /** No thread gets stuck: until it exits there is a step that brings it closer. */
  lemma CanAdvance(io: Io, store: seq<Record>, filtered: seq<Record>, own: Own, t: Thread)
    returns (own': Own, t': Thread)
    requires LocalInv(io, store, filtered, own, t) && !t.pc.Exited? && InBounds(io, own.cell.query)
    ensures Advances(io, store, own, t, own', t')
  {
    hide LocalInv, InBounds, BeginStep, SortStep, ItemStep, ScanStep;
    own' := own;
    match t.pc {
      case Begin => t' := BeginAdvances(io, store, filtered, own, t);
      case Sorting(_, _) => own', t' := SortAdvances(io, store, filtered, own, t);
      case Marking(l) => own', t' := MarkAdvances(io, store, filtered, own, t);
      case NextItem(_, _, _) => t' := ItemAdvances(io, store, filtered, own, t);
      case Scanning(_, _, _, _) => t' := ScanAdvances(io, store, filtered, own, t);
      case Returning =>
        own', t' := own.(cell := own.cell.(grouperResult := t.res)), t.(pc := Filtering(0, []));
      case Filtering(_, _) => own', t' := FilterAdvances(io, store, filtered, own, t);
    }
  }

  lemma MarkAdvances(io: Io, store: seq<Record>, filtered: seq<Record>, own: Own, t: Thread)
    returns (own': Own, t': Thread)
    requires LocalInv(io, store, filtered, own, t) && t.pc.Marking?
    ensures Advances(io, store, own, t, own', t')
  {
    hide ClausesDone, SortedFor;
    own', t' := own.(slots := own.slots[own.cell.count := null]), t.(pc := NextItem(t.pc.l, 0, []));
  }

  lemma FilterAdvances(io: Io, store: seq<Record>, filtered: seq<Record>, own: Own, t: Thread)
    returns (own': Own, t': Thread)
    requires LocalInv(io, store, filtered, own, t) && t.pc.Filtering?
    ensures Advances(io, store, own, t, own', t')
  {
    hide Grouped, DnfMatches;
    var groups, i := own.cell.grouperResult.groupset, t.pc.i;
    if i == |groups| {
      own', t' := own.(cell := own.cell.(gfilterResult := t.pc.kept)), t.(pc := Exited);
    } else {
      own', t' := own, t.(pc := Filtering(i + 1, t.pc.kept
        + (if DnfMatches(own.cell.query.groupFilterClauses, groups[i].cooked) then [groups[i]] else [])));
    }
  }
}
