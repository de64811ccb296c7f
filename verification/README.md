# A verified model of the NFQL query engine

NFQL runs a flow query as a pipeline. `read_trace` filters a trace into branches, each branch groups its records and
filters the groups in a thread of its own, the merger joins the branches' groups into tuples, and the ungrouper unfolds
every tuple into a stream of records. This project models that pipeline from the first record read to the last stream
written, together with the IPFIX template that decides where the fields of a record are.

`dafny verify dfyconfig.toml` checks everything.

| file | models |
|---|---|
| `Bytes.dfy` | memory: little-endian loads and stores of 1, 2, 4 or 8 bytes, `uint64_t` arithmetic |
| `Lex.dfy`, `Seqs.dfy`, `Folds.dfy`, `Runs.dfy` | lexicographic order, filtering, flattening, sums and counts, and the cut of a sequence into runs |
| `Query.dfy` | terms, clauses and the generated comparators (`scripts/generate-functions.py`) |
| `Odometer.dfy`, `Merger.dfy`, `MergerClauses.dfy` | the permutation iterator (`src/utils.c`), the join it drives, and its clause loop (`src/merger.c`) |
| `Sorting.dfy`, `Grouper.dfy`, `Cooked.dfy` | the sort order, the in-place sort and scan, the cooked record (`src/grouper.c`) |
| `Bits.dfy`, `LowSort.dfy`, `Unions.dfy`, `Aggregates.dfy` | the generated aggregation functions (`scripts/generate-functions.py`) |
| `FilterMeaning.dfy`, `GroupingMeaning.dfy`, `JoinMeaning.dfy` | what filters accept, what grouper clauses put together and what the merger joins, said of the bytes of records alone |
| `KeyGroups.dfy`, `DeltaGroups.dfy` | what the groups of equality terms are: key classes, linkage components, fewest intervals |
| `CookedFields.dfy`, `CookedKeys.dfy`, `TemplateFields.dfy` | what each field of a cooked record holds, joins through cooked records, and fields taken from one template |
| `IpfixTemplate.dfy` | the record layout and its translation for libfixbuf (`src/io-ipfix.c`) |
| `Trace.dfy`, `Pipeline.dfy` | the filtering pass over a reused buffer, and the stages put together (`src/f.c`, `src/groupfilter.c`, `src/ungrouper.c`) |
| `SharedMemory.dfy`, `BranchThread.dfy`, `Threads.dfy` | the memory the branch threads share, one thread's steps, and all their interleavings (`src/f.c`, `src/branch.c`) |

A record is an object with constant bytes: `read_trace` copies it once and nobody writes to it again, so object identity
stands for the pointer and branches can share it. Sorting is an in-place insertion sort whose contract says only "some
sorted permutation", and all results about groups rest on that contract alone. The grouper's result (`Grouped`) and the
outcome of a query (`QueryOutcome`) are predicates that the methods establish and the lemmas start from.

Where the code and its documentation differ, the model follows the code:

- `src/merger.c:113` raises the flag `clause` once per tuple and no later line raises it again, so the first clause that
  fails decides, although `src/merger.c:128`, `src/merger.c:154` and `RELEASES.md:50-52` promise alternatives.
  `MergerClauses.DnfOnlyForOneClause` and `Merger.MergerMeansDnf` say exactly when the two agree, and
  `MergerClauses.SecondClauseIgnored` gives the inputs on which they do not.
- Without clauses the merger accepts every tuple; the filter and the group filter accept nothing.
- `value - delta` and `value + delta` wrap around in `uint64_t`: `Query.CompareMeaning`, `DeltaGroups.GroupsAreIntended`,
  `DeltaGroups.RelativeGroupsAreComponents` and `DeltaGroups.AbsoluteGroupsAreFewest` give the exact conditions under
  which that does no harm, `DeltaGroups.EqualValuesSplit` an input on which it does.
- `compar` (`scripts/generate-functions.py:130`) compares the low 32 bits of 64-bit slots: `LowSort.LowSortIsSort`,
  `Unions.UnionClimbs` and `Unions.UnionListsOnce` say exactly when that still sorts and when unions are in order and free
  of repetitions; `Unions.WideUnionDescends` and `Unions.WideUnionMayRepeat` show unions that are not.
- `ipfix_ie_type_sizeof` returns -1 for types without a fixed size, and the caller keeps it in a `size_t`:
  `IpfixTemplate.RegisterKeepsLayoutIffFixed` shows that exactly these registrations ruin the layout.
- The comment at `src/grouper.c:127-129` speaks of the first term of the first clause; the sort uses all terms of the
  clause at hand.

## Model

| member | source | states |
|---|---|---|
| `Odometer.IterInit` | src/utils.c:187-226 | no iterator iff some branch has no filtered group, otherwise one that stands at rank -1, just before the first tuple |
| `Odometer.IterNext` | src/utils.c:232-253 | raises the mixed-radix rank by exactly one and stays inside the box; false iff the rank was the highest, and then all places are back at one |
| `Odometer.CarryStep` | src/utils.c:235-249 | raising one place and resetting the exhausted places behind it is one step of rank |
| `Odometer.RankBounds` | src/utils.c:187-253 | ranks of tuples in the box run from 0 to the product of the counts, exclusive |
| `Odometer.RankIsLexicographic` | src/utils.c:187-253 | order of ranks is lexicographic order, and equal ranks mean equal tuples |
| `Odometer.NestedLoopsByRank` | src/utils.c:179-186 | the k-th tuple that nested loops of run-time depth visit is the tuple of rank k |
| `Odometer.NestedLoopsComplete` | src/utils.c:179-186 | nested loops visit every tuple of the box exactly once, at the place given by its rank |
| `Merger.TermsHold` | src/merger.c:134-152 | the term loop, with its early exit, decides whether all terms of a clause hold of the tuple |
| `Merger.EvalClauses` | src/merger.c:113-161 | the clause loop accepts iff there is no clause or the first clause holds |
| `Merger.TryTuple` | src/merger.c:112-196 | one round keeps "the kept tuples are the accepted ones among those of lower rank" for the next rank |
| `Merger.Merge` | src/merger.c:111-212 | the result is the nested-loop join filtered by the clause loop, in nested-loop order; the counter is the number of tuples modulo 2^32; nothing if a branch is empty |
| `Merger.EmptyBranch` | src/utils.c:216-220 | a branch without groups leaves no tuple at all |
| `Merger.TupleAtRank` | src/merger.c:174-178 | one-based group numbers in bounds pick the tuple at their rank in the join's order |
| `Merger.JoinMembers` | src/merger.c:111-209 | a tuple is in the join iff it takes one group of each branch and the test accepts it |
| `Merger.MergerMeansDnf` | src/merger.c:128-161 | the join means the disjunction of the clauses iff for every tuple a later clause only holds where the first one does |
| `JoinMeaning.OneTermAccepts` | scripts/generate-functions.py:385-413 | a one-term query accepts iff the left branch's and the right branch's cooked numbers are not zero and compare as the operator says, in this order |
| `JoinMeaning.MergerTermsAreAnded` | src/merger.c:133-152 | a clause `c + d` accepts a tuple iff `c` and `d` do; a query without terms accepts every tuple |
| `JoinMeaning.MergerClauseLaws` | src/merger.c:113-161 | the engine accepts as the first clause alone does, the query means as any of its clauses does |
| `JoinMeaning.JoinIsLexicographic` | src/merger.c:111-197 | of two tuples of the join the earlier one has the smaller group number at the first branch where they differ |
| `JoinMeaning.KeyJoin` | src/merger.c:128-196 | a clause of key equalities joins exactly the choices of one group per branch in which, for every term, every member of the one group agrees with every member of the other on a number other than zero |
| `MergerClauses.DnfOnlyForOneClause` | src/merger.c:113-161 | over queries of n clauses and tuples of groups the grouper builds, clause loop and disjunctive normal form agree iff n is at most one |
| `MergerClauses.SecondClauseIgnored` | src/merger.c:113-161 | for any two groups the grouper builds with different non-zero keys: "equal, or different" holds of them, and the clause loop refuses them |
| `MergerClauses.LoneGroup` | src/grouper.c:484-801 | a single record makes a single finished group, so such groups exist |
| `Query.CompareMeaning` | scripts/generate-functions.py:140-155 | for every value of a field of 1, 2, 4 or 8 bytes the widened comparator means what it says iff no bound wraps to where the field can reach; for 8 bytes iff no bound wraps |
| `Query.EvalDnf` | src/f.c:1325-1352 | the loops with their flags accept iff some clause has all its terms true |
| `FilterMeaning.TermAccepts` | scripts/generate-functions.py:140-155 | a one-term filter accepts exactly the records whose number in the field stands in the intended relation to the value, widened by the delta, iff no bound wraps to where the field can reach |
| `FilterMeaning.PlainTermAccepts` | scripts/generate-functions.py:140-155 | without a delta the six operators compare the record's number with the query's value, in this order |
| `FilterMeaning.WidenedTermAccepts` | scripts/generate-functions.py:140-155 | with a delta that does no harm they are the six comparisons widened by it |
| `FilterMeaning.TermsAreAnded` | src/f.c:1330-1352 | a clause `c + d` accepts iff `c` and `d` do, the empty clause accepts everything |
| `FilterMeaning.ClausesAreOred` | src/f.c:1325-1352 | filters `cs + ds` accept iff one of the two does, and no clause accepts nothing |
| `FilterMeaning.BranchFilterMeans` | src/f.c:1313-1400 | a branch with a one-term filter receives exactly the trace records whose number stands in the relation |
| `FilterMeaning.GroupFilterMeans` | scripts/generate-functions.py:363-379 | a one-term group filter keeps exactly the groups whose cooked number stands in the relation |
| `Bytes.LoadDigits` | scripts/generate-functions.py:143-143 | byte i of a field is digit i of its number, the lowest first |
| `Sorting.CompUint` | src/utils.c:148-161 | the sign of the comparison of two unsigned numbers, each sign in both directions |
| `Sorting.QsortComp` | src/grouper.c:825-850 | the comparator returns the sign of the lexicographic comparison of the records' keys |
| `Sorting.CompIsTotalPreorder` | src/grouper.c:825-850 | antisymmetric in sign, transitive, and zero iff all keys agree |
| `Sorting.QsortR` | src/grouper.c:127-146 | leaves a permutation of the same record pointers, sorted by key, and touches nothing behind them |
| `Sorting.SortedMeans` | src/grouper.c:825-850 | sorted means that at the first right-hand field that tells two records apart the earlier one has the smaller number |
| `Runs.RunsUnique` | src/grouper.c:530-669 | join test and sorted array leave the scan no choice: there is only one cut into maximal runs |
| `Runs.RunsExist` | src/grouper.c:530-669 | for every test and array there is such a cut |
| `Grouper.TermsMatch` | src/grouper.c:612-634 | the term loop decides whether the record joins by all terms of the clause |
| `GroupingMeaning.TermJoinsMeans` | scripts/generate-functions.py:163-202 | for every operator, operator type and pair of fields, a single term joins the record iff the held record's left number stands in the intended relation to the record's right number; held is the last member for `REL`, else the first, and `NO` has no delta |
| `GroupingMeaning.PlainTermJoins` | scripts/generate-functions.py:163-202 | without a delta the six operators compare left number with right number, in this order |
| `GroupingMeaning.JoinTermsAreAnded` | src/grouper.c:611-634 | a clause `c + d` joins iff `c` and `d` do, the empty clause joins everything |
| `GroupingMeaning.GroupsMean` | src/grouper.c:530-669 | for any clause a cut of the sorted array is the engine's grouping iff inside each piece every later member is related to the held one and the first of the next piece is not |
| `GroupingMeaning.EngineGroupsMean` | src/grouper.c:484-801 | so are the groups the engine makes of a clause |
| `Grouper.TryJoin` | src/grouper.c:612-668 | the record becomes the last member iff all terms match, otherwise the group stays as it was |
| `Grouper.ScanGroup` | src/grouper.c:556-669 | one group is the run from its first record up to the record before the first that does not join; which positions it compared |
| `Grouper.GroupByClause` | src/grouper.c:506-801 | sorts in place, cuts the sorted array into runs, finishes every group, stops at the NULL mark, and compares each of the n-1 candidate positions once |
| `Grouper.OneGroup` | src/grouper.c:292-424 | without clauses one group holds all filtered records in their order |
| `Grouper.GroupRecords` | src/grouper.c:201-822 | the groups of all clauses one after the other, each clause's groups the runs of a sorted permutation of the filtered records, although every clause re-sorts the same array |
| `Grouper.ClausePartitions` | src/grouper.c:484-669 | a clause's groups are non-empty and together are a permutation of the filtered records |
| `Grouper.OncePerClause` | src/grouper.c:484-812 | over L clauses each record is a member exactly L times as often as it was filtered |
| `Grouper.MembersAreFiltered` | src/grouper.c:232-822 | a record is a member of some group iff it was filtered |
| `Grouper.HullOfGroups` | src/grouper.c:581-660 | the hull of a clause's group spans is the span of all filtered records |
| `Grouper.SumsConserved` | src/grouper.c:767-784 | a clause's group sums add up to the sum over all filtered records, and so do the kept 64-bit values modulo 2^64 |
| `KeyGroups.KeysClimb` | src/grouper.c:530-669 | group keys rise strictly, so a key never comes back |
| `KeyGroups.GroupsAreKeyClasses` | src/grouper.c:506-669 | with plain keys two filtered records share a group iff they agree on every key field |
| `KeyGroups.GroupCountIsKeyCount` | src/grouper.c:506-669 | there are as many groups as distinct keys |
| `KeyGroups.GroupsIndependentOfSort` | src/grouper.c:113-198 | the groups, as multisets and in order, do not depend on which sorted permutation the sort returned nor on the operator types |
| `KeyGroups.OperatorTypeIrrelevant` | scripts/generate-functions.py:165-174 | on one sorted array `REL`, `ABS` and `NO` give the very same groups |
| `DeltaGroups.DeltaVerdict` | scripts/generate-functions.py:169-174 | what the wrapping comparator accepts of two ascending values: near, and not tripping over the wrap-around |
| `DeltaGroups.SortedIsAscending` | src/utils.c:148-161 | for one term the sort order is the order of the field's values |
| `DeltaGroups.GroupsAreIntended` | src/grouper.c:607-669 | the engine's groups are those of the comparison without wrap-around iff no pair inside such a group trips |
| `DeltaGroups.GroupsAreLinkageComponents` | src/grouper.c:607-669 | without wrap-around, a relative term puts two records into one group iff a chain of records at most delta apart links them |
| `DeltaGroups.RelativeGroupsAreComponents` | src/grouper.c:607-669 | the engine's own groups are these components iff all close neighbours of the sorted array are tolerated |
| `DeltaGroups.AnchorsApart` | src/grouper.c:529-669 | without wrap-around, a member lies within delta of its own anchor and of no earlier one |
| `DeltaGroups.GroupsCover` | src/grouper.c:529-669 | one interval of length delta per group covers all values |
| `DeltaGroups.NoSmallerCover` | src/grouper.c:529-669 | no cover by closed intervals of length delta, real left ends included, has fewer intervals than there are groups |
| `DeltaGroups.AnchorsTellIffNoTrip` | src/grouper.c:529-669 | in the engine's groups each member is within delta of its own anchor only, iff no pair trips; then the groups are the fewest |
| `DeltaGroups.NearPair` | scripts/generate-functions.py:169-174 | two records with values at most delta apart are split iff the second value trips over the wrap-around |
| `DeltaGroups.AbsoluteGroupsAreFewest` | src/grouper.c:529-669 | whatever different records are drawn from a pool, they are grouped into the fewest intervals iff no two records of the pool with near values trip |
| `DeltaGroups.EqualValues` | scripts/generate-functions.py:169-174 | two records of one value are split iff the value is closer than delta to an end of the range |
| `DeltaGroups.EqualValuesSplit` | scripts/generate-functions.py:169-174 | the value 3 and a delta of 5: meant to be one group, but split |
| `LowSort.QsortCompar` | scripts/generate-functions.py:127-133 | some permutation of the slots, sorted by their low 32 bits |
| `LowSort.LowSortIsSort` | scripts/generate-functions.py:127-133 | every sort by low halves sorts the values iff low halves tell all different values apart in the right order |
| `Aggregates.Union` | scripts/generate-functions.py:281-306 | the list is a union of the members' values: all of them, none more often than a member has it, neighbours different, low halves in order |
| `Unions.UnionIsExact` | scripts/generate-functions.py:281-306 | that description allows exactly what some sort by low halves followed by dropping repetitions yields |
| `Aggregates.Median` | scripts/generate-functions.py:307-322 | a member's value with at most half the members below it and more than half at or below it, by low halves |
| `Aggregates.Accumulate` | scripts/generate-functions.py:247-263 | the 64-bit accumulator holds the sum modulo 2^64 |
| `Aggregates.AccumulateBits` | scripts/generate-functions.py:247-254 | the accumulator of `or` has a bit set iff some member has it, that of `xor` iff an odd number of members do |
| `Bits.BitwiseBit` | scripts/generate-functions.py:252-253 | each bit of bitwise or and bitwise exclusive or depends on the same bits of the operands only |
| `Bits.OrBits` | scripts/generate-functions.py:252-253 | a bit of an or is set iff some value has it |
| `Bits.XorBits` | scripts/generate-functions.py:252-253 | an exclusive or of nothing is zero, and one more value flips exactly its own bits |
| `Bits.FoldFits` | scripts/generate-functions.py:252-254 | the fold of values of w bytes needs no more than w bytes |
| `Bits.FoldOrderFree` | scripts/generate-functions.py:252-253 | the fold does not depend on the order of the values |
| `Aggregates.Aggregate` | scripts/generate-functions.py:211-322 | static, count, union, median, mean, sum, or and xor each yield what the operator means |
| `Unions.UnionClimbs` | scripts/generate-functions.py:281-306 | every union of given values climbs strictly iff low halves tell different values apart in the right order |
| `Unions.UnionListsOnce` | scripts/generate-functions.py:281-306 | no union of given values lists one twice iff values that share their low half with another value occur once |
| `Unions.SmallUnionClimbs` | scripts/generate-functions.py:281-306 | below 2^32 the union is strictly increasing |
| `Unions.UnionOrderFree` | scripts/generate-functions.py:281-306 | below 2^32 the union does not depend on the order of the members |
| `Aggregates.MedianSplits` | scripts/generate-functions.py:307-322 | below 2^32 at most half the values are smaller than the median and more than half at most as large |
| `Aggregates.MedianOrderFree` | scripts/generate-functions.py:307-322 | below 2^32 the median does not depend on the order of the members |
| `Unions.WideUnionDescends` | scripts/generate-functions.py:127-133 | every union of 2^32 and 1 is the descending list of the two |
| `Unions.WideUnionMayRepeat` | scripts/generate-functions.py:127-133 | a union of 2^32, 0 and 2^32 may list 2^32 twice |
| `Aggregates.SumOrderFree` | scripts/generate-functions.py:247-254 | sums do not depend on the order of the members |
| `Aggregates.SumOfMembers` | scripts/generate-functions.py:252-253 | no members sum to zero, and one more member adds the number in its field |
| `Aggregates.NarrowSumFits` | scripts/generate-functions.py:247-263 | fewer than 2^32 values below 2^32 never make the accumulator wrap |
| `Aggregates.NarrowMeanExact` | scripts/generate-functions.py:255-263 | for such values the mean is the exact floor of the mean and lies between any bounds of the values |
| `Aggregates.NarrowFieldOfSum` | scripts/generate-functions.py:252-254 | what a w-byte field keeps of the wrapped sum is the true sum modulo 2^(8w) |
| `Aggregates.NarrowGroupMeans` | scripts/generate-functions.py:255-322 | over a group and a field of at most 32 bits the union climbs and lists the members' values, the median splits them in the middle, the mean is the exact floor |
| `Aggregates.AggregatesOrderFree` | scripts/generate-functions.py:240-322 | no aggregation depends on the order of the members, unions and medians for fields of at most 32 bits |
| `Cooked.TimeHullMeans` | src/grouper.c:334-364 | the kept span reaches from the earliest start to the latest end, both taken by members |
| `Cooked.GroupSpan` | src/grouper.c:581-660 | no member of a finished group starts before its span or ends after it, and some member starts and some ends with it, by the bytes at the timestamp offsets |
| `Cooked.Group.constructor` | src/grouper.c:536-586 | a group of one member with that member's span and a zeroed cooked record |
| `Cooked.Group.Add` | src/grouper.c:639-660 | the member is appended and the span stays the hull of all members |
| `Cooked.Group.PutFilterFields` | src/grouper.c:688-709 | writes every filter term's field from the first member, in order |
| `Cooked.Group.PutGrouperFields` | src/grouper.c:716-758 | writes both fields of every grouper term in the left field's width, one write when the offsets coincide |
| `Cooked.Group.PutAggregations` | src/grouper.c:35-111 | every term's values mean what its operator says, and its write follows those before it |
| `Cooked.Group.Finish` | src/grouper.c:676-784 | span, aggregates and cooked record of a finished group, the record being zeros under all writes in order |
| `Cooked.IfIgnore` | src/grouper.c:68-99 | the flag is set iff some filter or grouper term uses the aggregated offset |
| `Cooked.FinishExists` | src/grouper.c:676-784 | a query whose fields lie inside the record can finish a group of any members |
| `CookedKeys.CookedKeepsFirst` | src/grouper.c:688-758 | a key field of the cooked record ends up with the first member's value, whatever is written around it |
| `CookedKeys.CookedKeyIsEveryMembers` | src/grouper.c:688-758 | with plain keys the cooked key equals the key of every member |
| `CookedKeys.MergedByKey` | scripts/generate-functions.py:385-398 | a key equality of the merger holds of two groups iff every member of one matches every member of the other, with a value other than zero |
| `CookedKeys.CookedFilterValue` | src/grouper.c:684-709 | a field that a one-clause filter pins to a value has that value in the cooked record of accepted records |
| `CookedFields.CookedFilterField` | src/grouper.c:370-395 | every filter term's field of the cooked record holds the first member's number, with or without grouper clauses |
| `CookedFields.CookedGrouperFields` | src/grouper.c:711-758 | so do both fields of every grouper term, the right one in the width of the left, one field or two |
| `CookedFields.CookedUntouched` | src/grouper.c:548-552 | a field no term writes to is zero |
| `CookedFields.CookedValue` | src/grouper.c:101-109 | the k-th list of values means what its operator says, and its one value ends up in the cooked field, cut to the field's width |
| `CookedFields.CookedCount` | scripts/generate-functions.py:240-246 | the cooked field of a count holds the number of members, as far as it fits |
| `CookedFields.CookedMean` | scripts/generate-functions.py:255-263 | the cooked field of a mean of at most 32 bits holds the exact floor of the mean |
| `CookedFields.CookedMedian` | scripts/generate-functions.py:307-322 | the cooked field of a median of at most 32 bits holds a member's number that splits the members in the middle |
| `CookedFields.CookedStatic` | scripts/generate-functions.py:221-239 | the cooked field of a static aggregation holds the first member's number when a filter or grouper term uses the offset, otherwise zero |
| `CookedFields.CookedSum` | scripts/generate-functions.py:247-254 | the cooked field of a sum holds the members' true sum modulo the width of the field |
| `CookedFields.CookedBits` | scripts/generate-functions.py:247-254 | the cooked field of an `or` or `xor` holds exactly the members' fold |
| `TemplateFields.TemplateFieldsApart` | src/io-ipfix.c:222-256 | two fields from one template start together or do not overlap, and lie inside the record |
| `TemplateFields.TemplateFits` | src/io-ipfix.c:222-278 | a query over template elements stays inside the record, and a field fits it iff all writes at its own offset have its width |
| `TemplateFields.ReadsWholeElement` | src/io-ipfix.c:699-738 | a comparator in the width of an element's type reads exactly the bytes the template gave the element |
| `IpfixTemplate.AlignUpLeast` | src/io-ipfix.c:231-237 | the offset is the least multiple of the size not below the next free byte, sizes 6 and 16 included |
| `IpfixTemplate.RecSizeLeast` | src/io-ipfix.c:268-278 | the shifts round up to the next multiple of 8 |
| `IpfixTemplate.RegisterBuilds` | src/io-ipfix.c:222-256 | registering a fixed-size, a known or an unknown element keeps a built template built |
| `IpfixTemplate.BuiltIsLayout` | src/io-ipfix.c:222-278 | unique names, aligned offsets, disjoint ranges in order, all inside the record |
| `IpfixTemplate.RegisterKeepsLayoutIffFixed` | src/io-ipfix.c:228-252 | one registration keeps the layout iff the element is there already, unknown, or of fixed size |
| `IpfixTemplate.LayoutNeedsOctets` | src/io-ipfix.c:699-738 | the same with the types listed: one registration keeps the layout iff the element is there, unknown, or of a type with 1, 2, 4, 6, 8 or 16 octets |
| `IpfixTemplate.ElementOctets` | src/io-ipfix.c:699-738 | an element of a built template has its name's type and spans exactly the octets of that type |
| `IpfixTemplate.DefaultLayout` | src/io-ipfix.c:187-215 | with the source's types the default elements are at 0, 8, 16, 20, 24, 26, 28, 32, 40, 48, 56, 57 and 58, in records of 64 bytes |
| `IpfixTemplate.RegisterTwice` | src/io-ipfix.c:226-226 | registering again changes nothing and succeeds |
| `IpfixTemplate.AnyRunIsLayout` | src/io-ipfix.c:222-278 | any run of registrations ends in a proper layout that holds all known names and moves nothing placed before |
| `IpfixTemplate.Template.GetIe` | src/io-ipfix.c:684-697 | the first element of that name, or none iff there is none |
| `IpfixTemplate.Template.GetIeOffset` | src/io-ipfix.c:259-266 | -1 iff the name is not registered, otherwise the offset of an element of that name |
| `IpfixTemplate.Template.IeRegister` | src/io-ipfix.c:222-256 | the new state and return value are those of the specification, and the elements so far stay where they are |
| `IpfixTemplate.AddIe` | src/io-ipfix.c:769-783 | after the padding, whose length satisfies the source's assertion 0 < p < 64, the element sits at its registered offset |
| `IpfixTemplate.EndSpec` | src/io-ipfix.c:785-794 | padding and end marker bring the total length to the record size and leave all elements in place |
| `IpfixTemplate.Template.GetFbInfoElemSpec` | src/io-ipfix.c:740-805 | summing the lengths in the list puts every element at its registered offset and ends at the record size |
| `IpfixTemplate.TemplNew` | src/io-ipfix.c:174-220 | fails iff a default element is unknown, otherwise holds exactly the run of all default registrations: a proper layout when none of them has a variable length, and with the source's types every default element at its offset |
| `Trace.Reader.ReadRecord` | src/io-ipfix.c:355-376 | the next record, always in the one buffer, or null at the end of the trace |
| `Trace.FilterRecord` | src/f.c:1319-1399 | at most one fresh copy enters the store, iff some filter accepts; the branches that accept get that copy, all others nothing |
| `Trace.OneMore` | src/f.c:1313-1400 | one more record keeps store and branches the filtered images of the part read so far |
| `Trace.ReadAll` | src/f.c:1313-1400 | the store has one unchanged copy of every record some branch accepts, in trace order; each branch has those it accepts, although the reader overwrites its buffer |
| `Trace.ReadTrace` | src/f.c:1237-1452 | the same, and each branch's own array holds its records with a NULL behind the last |
| `Trace.BranchReceives` | src/f.c:1313-1400 | byte for byte, a branch's records are the subsequence of the trace its filter accepts, and all are shared copies |
| `Pipeline.GroupFilter` | src/groupfilter.c:83-140 | keeps, in order, the groups whose cooked record satisfies some clause |
| `Pipeline.BranchStart` | src/branch.c:76-197 | results of both stages belong to the branch's filtered records, and nothing but the branch and its own array changes |
| `Pipeline.Ungroup` | src/ungrouper.c:49-119 | one stream per tuple: the members of its groups, branch by branch |
| `Pipeline.StreamSegment` | src/ungrouper.c:86-108 | each group's members stand in the stream in one piece and in order, behind those of the earlier branches |
| `Pipeline.StreamLength` | src/ungrouper.c:97-107 | a stream is as long as its groups have members together |
| `Pipeline.StreamPosition` | src/ungrouper.c:86-108 | each place of a stream lies in one branch's piece and holds that member of that branch's group, so a stream holds nothing else |
| `Pipeline.StreamsAreSound` | src/ungrouper.c:59-118 | the record at any place of any stream came from the trace, passed its branch's filter, and sits in a group of the branch that passed its group filter, in a tuple the merger accepted |
| `Pipeline.StreamsAreComplete` | src/ungrouper.c:59-118 | every choice of passing groups the merger accepts has a stream with all members of all its groups |
| `Pipeline.AcceptedRecordsAreGrouped` | src/f.c:1313-1400 | every trace record a branch's filter accepts is a member of one of the branch's groups |
| `Pipeline.RunBranches` | src/f.c:1454-1499 | every branch ends with an outcome of its own filtered records, untouched by the others |
| `Pipeline.MergeAndUngroup` | src/merger.c:111-212 | the tuples are the join of the branches' groups and the streams unfold them |
| `Pipeline.RunQuery` | src/f.c:1502-1733 | all stages in a row give an outcome of the query, each stage tied to the one before |
| `SharedMemory.StepShape` | src/branch.c:76-197 | no step moves a thread to another branch or a branch to another array, or changes an array's length |
| `SharedMemory.ApartUntouched` | src/f.c:1389-1392 | writing through one branch's references shows from no branch with another array, and never in the store |
| `SharedMemory.SharedArrayInterferes` | src/grouper.c:194-195 | with one array for two branches it would: the end mark of one overwrites a record of the other |
| `BranchThread.OwnStepKeeps` | src/branch.c:76-197 | between any two steps, apart from inside the sort, a thread's array is a permutation of its records, and its results are those of the stages behind it |
| `BranchThread.CanAdvance` | src/branch.c:76-197 | a thread that has not exited always has a step that brings it closer to its exit, and finds only records of the store |
| `Threads.StartSeparate` | src/f.c:1412-1430 | what `read_trace` leaves behind keeps the threads separate: different branches, different arrays |
| `Threads.StartInv` | src/f.c:1237-1452 | and every thread starts on its own filtered records, all of them in the store |
| `Threads.RunTouchesOwn` | src/f.c:1454-1499 | from separate threads, a step of one changes nothing another one reaches, leaves the store alone, and keeps all of them separate |
| `Threads.StepAlone` | src/f.c:1454-1499 | a step a thread takes among the others is a step it can take alone, with the same effect |
| `Threads.ScheduleIndependence` | src/f.c:1454-1499 | from a separate start and under any schedule, what a thread goes through is a run of its branch alone, with the same fields and the same array at the end |
| `Threads.LoneOutcomeReached` | src/f.c:1454-1499 | conversely, every outcome a branch has alone is its outcome in some finished schedule |
| `Threads.StepsCommute` | src/f.c:1454-1499 | neighbouring steps of different threads can be swapped and lead to the same memory |
| `Threads.StepKeepsInv` | src/f.c:1454-1499 | every step of any thread or of the main thread keeps the invariant of all threads |
| `Threads.ScheduleKeepsInv` | src/f.c:1454-1499 | so every state of every schedule satisfies it |
| `Threads.MergedOutcome` | src/f.c:1712-1720 | once the merger has run, all threads had exited, each branch holds an outcome of its own records, and the tuples are the join of exactly these |
| `Threads.AnyScheduleAnswersTheQuery` | src/f.c:1712-1733 | after `read_trace`, the tuples of any finished schedule, unfolded, are an outcome of the query, so soundness and completeness hold of them |
| `Threads.NothingAfterMerge` | src/f.c:1712-1733 | the merger comes last: no step is possible after it |
| `Threads.CanMove` | src/f.c:1454-1499 | until the merger has run there is a step that brings it closer: no deadlock |
| `Threads.CanFinish` | src/f.c:1712-1733 | from every state a schedule can reach, the merger can still be reached |

## Left out

- Odometer.IterInit: assumes at least one branch; with none the source would write before its array.
- IpfixTemplate.RegisterBuilds: the table from names to types is a parameter, with the bound `31 * |types| + 40 < 2^64` that keeps the offsets of any template from wrapping around.
- Trace.Reader.ReadRecord: the buffer is exactly as long as each record; libfixbuf, its locks and its errors other than the end of the file are not part of this model.
- Sorting.QsortR: `qsort_r` and `qsort` belong to the C library; the insertion sorts stand in for them, and only "some sorted permutation" is used of them.
- Bytes.Load: bytes behind the end of a record read as zero; writes are proved to stay inside.
- Threads.CanFinish: some schedule reaches the merger from everywhere; that every schedule does is not stated, since nothing bounds the steps inside `qsort_r` and no fairness is assumed.
- SharedMemory.ApartUntouched: groups and cooked records are values in a thread's result rather than memory of their own, and no statement of a thread writes to a record.
- Aggregates.Aggregate: `min`, `max`, `prod` and `and` do not compute what they are named after, and `stddev` needs a floating-point square root.
- The 32-bit counters for records, members and groups are unbounded; only the merger's count of tried tuples wraps around.
- A group is an object while the grouper builds it and a value afterwards, since no later stage writes to it.
- The Allen-interval operators of the merger and `RULE_IN`: comparisons of single pairs of scalars.
- The switches that turn off whole stages, except the one for group aggregations.
- NetFlow v5 offsets and its timestamp conversion; start and end are 8-byte loads at given offsets, as for IPFIX.
- JSON queries, the command line, printing, the file writers, freeing of memory and failing allocations.
