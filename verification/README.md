# MiniOB: a verified model of its hard parts

This project models, in Dafny 4.11, the parts of the MiniOB SQL server whose correctness is not
visible from any single function, and proves what the server's code and comments promise about them.

* **SELECT planning, rewriting and execution.** Expressions, tuples and logical plans are datatypes,
  and a plan denotes a sequence of rows (`Expressions`, `LogicalPlan`). `Planner` is the generator
  that splits the WHERE units and interleaves them with a left-deep join tree; `ExprRewriter` and
  `PlanRewriter` are the rewriting rules and their fixpoint loop, with the condition under which each
  application of each rule keeps the meaning. `ExprClass` and `PlanClass` are a class of plans on which
  every pass meets all these conditions; `SelectPipeline` shows that the generator stays in it: whatever
  the tables hold, the rewritten plan delivers the cross product filtered by every WHERE unit that the
  generator keeps, in row-major order. `TopUnits` and `SelectExact` say exactly which rows any SELECT
  delivers, those that the rewriter gets wrong included, and exactly when they are right;
  `SelectStops` shows where the loop stops, and `PipelineRuns` follows two runs of units that are not
  built. `ValueSlot` is the evaluation of a conjunction as it is. `Like`, `NestedLoopJoin`, `GroupBy` and
  `FastSelfJoin` are the execution side.
* **The concurrent runtime.** `StagePool`, `TimerStage`, `SharedMutex` are step systems, one step per
  critical section, with invariants over every interleaving of any number of threads, stages and
  pools. `LockTrace` is the wait-for-graph check and the maps it reads.
* **Stateful structures and arithmetic.** `LruCache` (pointers and a hash set), `RingBuffer` and
  `BufferedWriter` (partial writes), `Md5` (streaming), `DateTime` (Julian days and durations).

`dafny verify dfyconfig.toml` checks everything.

## What the code does not do

Several promises turned out to hold only under a condition. The code is modelled as it is; each entry
names the lemma with the exact condition and, where that lemma does not show it, one with an input that
violates it.

* LIKE compares a pattern character with the subject before it looks for `%`, so a subject that
  contains `%` can be missed: `Like.ExactOnPercentFreeSubjects`.
* A comparison of two literals in the old operand form is dropped, not evaluated: `Planner.PlanExact`.
* The conjunction rule returns the first child, not the absorbing constant, and an OR whose children
  are all erased becomes true: `ExprRewriter.SimplifyExact`. This reaches every SELECT with a condition
  that reads no table. If one of these conditions is or becomes a constant false, the first of them that
  has not become true by then is left alone, and its rows are delivered; and a list of several values
  without the value looked for is taken for true. `SelectExact.SelectDelivers` says which rows come out of
  any SELECT, `SelectExact.RowsExact` and `SelectExact.WhereExact` when they are right. For example,
  `1 = 1 AND EXISTS (<no rows>)` delivers every row (`SelectExact.TautologyWins`), a correlated subquery
  before `1 = 2` delivers its rows (`SelectExact.SubqueryWins`), and so does one before an EXISTS that is
  false (`SelectExact.SubqueriesExact`); `1 IN (2, 3)` delivers every row (`SelectExact.LostValue`,
  `SelectExact.ValueListExact`).
* Erased and absorbed children of a conjunction do not set `change_made`. A pass that reports no change
  has made none if and only if no conjunction has a boolean constant among its children:
  `ExprRewriter.UnreportedChange`, `PlanRewriter.UnreportedPass`, `PlanRewriter.StopsStable`. So the loop
  may stop at a plan that a further pass changes: `ExprRewriter.SilentChange`, `PipelineRuns.StopsEarly`. The
  latter takes an OR inside an OR, which statement resolution does not build; on what it builds the loop
  always ends at a fixpoint: `SelectStops.SelectStopsAtFixpoint`.
* All children of a conjunction share one value, and no setter of `Value` clears its null flag; only the
  assignment of a constant or of a field of a cached row does. An AND never notices
  (`ValueSlot.SlotUnnoticedByAnd`); an OR is wrong exactly when each of its true children finds the flag
  standing (`ValueSlot.SlotExact`), as `a OR b` does on a stored row with a null `a` and 5 in `b`
  (`ValueSlot.FieldUnnoticed`, `ValueSlot.SlotNoticed`).
* A second pushdown overwrites the predicates of the first: `PlanRewriter.PushdownExact`. It takes a
  unit on one table that is an OR and loses its last constants only after the first pushdown, such as
  `b = 2 OR (1 = 2 AND 1 = 2)` next to `a = 1`: `PipelineRuns.PushdownTwice`. Statement resolution builds
  no such unit: its ORs are lists of comparisons of one operand
  (src/observer/sql/stmt/filter_stmt.cpp:549-565, 918-994), and for these every pushdown meets an empty
  scan: `SelectPipeline.AsBuiltGood`.
* The comment on pushdown asks for a field on one side and a field or a constant on the other; the
  second test is always passed, so every equality with a field on one side is pushed
  (src/observer/sql/optimizer/predicate_pushdown_rewriter.cpp:113-119). The model follows the code.
* A comparison takes the greatest integer, and floating point numbers next to the greatest, for the result
  of a division by zero and is false: `Expressions.SentinelCompares`.
* Cloning an expression turns a subquery predicate inside it into true: `Expressions.CloneIsCopy`.
* The nested-loop join over a cached table scan that fails after its first row hides the failure:
  `NestedLoopJoin.AllPairs`, whose condition does not ask how a cached child ended.
* GROUP BY compares texts of values. A null and the characters `NULL` share a group, and so may lists of
  characters that hold the separator: `GroupBy.KeyIsTexts`, `GroupBy.NullMeetsText`,
  `GroupBy.SeparatorMeetsText`.
* The self-join shortcut writes 0 where SQL says null when no joined record has a value:
  `FastSelfJoin.Materialize`, `FastSelfJoin.SumsDiffer`.
* `Stage::connect` looks at `connected_` a second time without the mutex. If `disconnect` starts in
  between, the backlog is never scheduled and `disconnect` never returns: `StagePool.PatientExactly`,
  `StagePool.DoomedHangs`, `StagePool.ImpatientRun`.
* `Stage::connect` and `set_pool` only ask that the stage is not connected, which also holds while
  `disconnect` waits. The reference count stays right if and only if nobody connects the stage then, or
  moves it to another pool while it is queued: `StagePool.RawExact`. Otherwise it can fall below zero:
  `StagePool.ReconnectRun`.
* The lock tracer's maps go wrong when a mutex is traced as unlocked after another thread has locked
  it (over whole runs of the macros: exactly then, `LockTrace.RunsFaithful`, `LockTrace.LateUnlockLosesOwner`),
  and when a free but often awaited mutex is checked: `LockTrace.TimedConsistent`. A refused trylock
  leaves its thread recorded as waiting: `LockTrace.RunsRecorded`, `LockTrace.RefusedMisleads`.
* The block loop of `MD5Update` tests `i + 63 < inputLen` in 32 bits: `Md5.GuardStops`, `Md5.GuardFails`.
* `add_duration_date_time` drops milliseconds, and its divisions truncate. The clock is right if and
  only if, of what the sums of hours, minutes and seconds leave, the first that is not zero is positive
  (`DateTimes.ClockExact`); going back over midnight it is not (`DateTimes.BeforeMidnight`). The day is
  right on the condition of `DateTimes.DayExact`. For years and months alone that is: the month sum is at least 1 or falls on a
  January, or the day is at most the 28th, or the month reached has 28 days (`DateTimes.MonthsOnlyExact`).
  January 31 less one month ends three days early (`DateTimes.BackFromJanuary`), March 15 less three
  months is right (`DateTimes.BackFromMarch`).
* `operator+=` leaves a time of exactly one day as it is, instead of the next midnight:
  `DateTimes.DateTime.AddSeconds`.

## Model

| member | source | states |
|---|---|---|
| `Like.MatchLike` | src/observer/sql/expr/expression.cpp:224-255 | terminates on every input; true only if the recursive LIKE definition matches, and exactly then when the subject has no `%` |
| `Like.Sound` | src/observer/sql/expr/expression.cpp:230-254 | whatever the greedy matcher accepts, LIKE accepts |
| `Like.Complete` | src/observer/sql/expr/expression.cpp:230-254 | on subjects without `%` the greedy matcher accepts whatever LIKE accepts: backtracking to the last `%` is enough |
| `Like.ExactOnPercentFreeSubjects` | src/observer/sql/expr/expression.cpp:231-238 | the matcher agrees with LIKE on all patterns if and only if the subject has no `%` |
| `Expressions.FoldingAgrees` | src/observer/sql/expr/expression.cpp:431-476 | a value found without a tuple is the value on every tuple |
| `Expressions.IntegersCompare` | src/observer/sql/expr/expression.cpp:367-425 | each of the six comparisons of two expressions with integer values is that of the numbers |
| `Expressions.ValuesCompare` | src/observer/sql/expr/expression.cpp:367-425 | on any values each operator accepts exactly the answers of `Value::compare` that its sign says |
| `Expressions.LikeCompares` | src/observer/sql/expr/expression.cpp:410-421 | LIKE and NOT LIKE are the meaning of the pattern and its negation on subjects without `%` |
| `Expressions.NullCompares` | src/observer/sql/expr/expression.cpp:370-383 | a null operand makes every comparison false but IS NULL and IS NOT NULL, which look at the left operand alone |
| `Expressions.SentinelCompares` | src/observer/sql/expr/expression.cpp:354-391 | the value that stands for a division by zero makes every other comparison false |
| `Expressions.KeepMeans` | src/observer/sql/parser/value.cpp:461-500 | a row passes a condition that is true on it, and none that is null or fails |
| `Expressions.BinaryMeans` | src/observer/sql/expr/expression.cpp:535-620 | arithmetic is null on a null operand and otherwise what the operator makes of the two values in order; a function gets its arguments in order |
| `Expressions.CastMeans` | src/observer/sql/expr/expression.cpp:304-333 | a cast keeps a value of its type, makes a truth value of any other, and fails for other types |
| `Expressions.RowReads` | src/observer/sql/expr/tuple.h:214-231 | a field reads the first cell of its name, of its own table or without a table name |
| `Expressions.JoinReads` | src/observer/sql/expr/tuple.h:482-490 | a joined row is asked on its left side first |
| `Expressions.KeepAnd` | src/observer/sql/expr/expression.cpp:483-507 | an AND keeps a row exactly when each child does, in spite of stopping early |
| `Expressions.Locality` | src/observer/sql/optimizer/logical_plan_generator.cpp:42-83 | an expression has the same value on a joined tuple as on the side that holds the tables collected for it |
| `Expressions.CloneIsCopy` | src/observer/sql/optimizer/logical_plan_generator.cpp:86-147 | a clone equals its original if and only if no subquery predicate is inside |
| `Expressions.ClonedKeepsAll` | src/observer/sql/optimizer/logical_plan_generator.cpp:86-147 | an OR with a subquery predicate inside is cloned to one that keeps every row |
| `Planner.Partition` | src/observer/sql/optimizer/logical_plan_generator.cpp:221-281 | each WHERE unit goes to its table, to the join filters or on top, in order |
| `Planner.Extract` | src/observer/sql/optimizer/logical_plan_generator.cpp:344-364 | erasing while iterating splits the join filters into those covered by the joined tables and the rest, both in order |
| `Planner.JoinNext` | src/observer/sql/optimizer/logical_plan_generator.cpp:332-388 | one table more: the join tree and the filters still pending |
| `Planner.CreatePlan` | src/observer/sql/optimizer/logical_plan_generator.cpp:205-454 | builds the plan that the results below are about, with or without tables |
| `Planner.JoinTreeRows` | src/observer/sql/optimizer/logical_plan_generator.cpp:288-389 | after every table the tree delivers the cross product so far under exactly the filters due so far |
| `Planner.NothingPending` | src/observer/sql/optimizer/logical_plan_generator.cpp:343-364 | no join filter is left after the last table when units mention listed tables only |
| `Planner.PlanRows` | src/observer/sql/optimizer/logical_plan_generator.cpp:205-454 | the plan delivers, in row-major order, the cross product filtered by all units it keeps |
| `LogicalPlan.ProductAt` | src/observer/sql/operator/join_physical_operator.cpp:113-141 | in the cross product the left row changes slowest, and each pair is a left and a right row |
| `LogicalPlan.ScanAt` | src/observer/sql/operator/table_scan_physical_operator.cpp:20-75 | a scan delivers the records of its table, in order, under its name |
| `LogicalPlan.SelectPicks` | src/observer/sql/operator/predicate_physical_operator.cpp:36-60 | a filter leaves exactly the rows that every condition keeps, each as often as it is there, in order |
| `Planner.PlanExact` | src/observer/sql/optimizer/logical_plan_generator.cpp:272-273 | the plan delivers the rows of the whole WHERE clause if and only if the dropped literal comparisons are true or no row passes the other units |
| `Planner.PlacedOnce` | src/observer/sql/optimizer/logical_plan_generator.cpp:221-420 | the predicates of the plan hold every kept unit exactly as often as the WHERE clause does |
| `Planner.NoTables` | src/observer/sql/optimizer/logical_plan_generator.cpp:441-450 | a SELECT without tables delivers no row |
| `ExprRewriter.SimplifyConjunction` | src/observer/sql/optimizer/conjunction_simplification_rule.cpp:28-82 | the erasing loop computes the simplification that the lemmas below are about |
| `ExprRewriter.SimplifySound` | src/observer/sql/optimizer/conjunction_simplification_rule.cpp:28-82 | simplification keeps the value, and any failure, on every tuple, and the typing, whenever a conjunction meets the guard |
| `ExprRewriter.GuardSound` | src/observer/sql/optimizer/conjunction_simplification_rule.cpp:45-66 | simplification keeps values and failures when no absorbing constant follows a non-constant and an OR keeps a child |
| `ExprRewriter.SimplifyExact` | src/observer/sql/optimizer/conjunction_simplification_rule.cpp:45-66 | on independent children that condition is also necessary |
| `ExprRewriter.RewriteExpression` | src/observer/sql/optimizer/expression_rewriter.cpp:61-137 | the recursive rewriting of one expression computes the function that the lemmas below are about |
| `ExprRewriter.RewriteSound` | src/observer/sql/optimizer/expression_rewriter.cpp:61-137 | folding, simplification and recursion together keep the value, and any failure, on every tuple, if each application of the conjunction rule on the way meets its guard |
| `ExprRewriter.UnreportedChange` | src/observer/sql/optimizer/conjunction_simplification_rule.cpp:37-70 | if no change is reported, the expression is the same when no conjunction in it has a boolean constant child, and strictly smaller otherwise |
| `ExprRewriter.SilentChange` | src/observer/sql/optimizer/expression_rewriter.cpp:61-137 | an expression that two successive visits change and the first does not report |
| `ExprRewriter.TypesKept` | src/observer/sql/optimizer/expression_rewriter.cpp:61-137 | rewriting keeps an expression well-typed, on every well-typed expression |
| `ExprClass.OpenKept` | src/observer/sql/optimizer/comparison_simplification_rule.cpp:18-35 | an expression that depends on the row is never folded away |
| `ExprClass.OrderlyGuarded` | src/observer/sql/optimizer/conjunction_simplification_rule.cpp:45-66 | orderly expressions, with constants first or harmless, meet the guard wherever the rule is applied |
| `ExprClass.OrderKept` | src/observer/sql/optimizer/expression_rewriter.cpp:61-137 | rewriting an orderly expression leaves an orderly one, so the next visit meets the guard too |
| `ValueSlot.SlotUnnoticedByAnd` | src/observer/sql/expr/expression.cpp:491-503 | sharing one value among the children never changes an AND, whatever the children are |
| `ValueSlot.SlotExact` | src/observer/sql/expr/expression.cpp:491-503 | it leaves an OR right if and only if, when some child is true, some true child is reached without a standing null flag or clears it by an assignment |
| `ValueSlot.SlotUnnoticed` | src/observer/sql/expr/expression.cpp:491-503 | it has no effect in either kind when all children are boolean expressions |
| `ValueSlot.SlotNoticed` | src/observer/sql/parser/value.cpp:159-166 | a null child before a true comparison makes an OR false |
| `ValueSlot.ConstantNoticed` | src/observer/sql/parser/value.cpp:64-166 | after a null child a true constant is seen, also through a cast, and whatever is computed is not |
| `ValueSlot.FieldUnnoticed` | src/observer/sql/expr/tuple.h:167-212 | a null field before a field that is 5: false on a stored row, true on a cached one |
| `PlanRewriter.GetExprsCanPushdown` | src/observer/sql/optimizer/predicate_pushdown_rewriter.cpp:73-124 | moving children out of the conjunction yields the pushed expressions, appended in order, and the rest |
| `PlanRewriter.CollectKeeps` | src/observer/sql/optimizer/predicate_pushdown_rewriter.cpp:73-124 | pushed expressions and the remaining predicate together are the original predicate |
| `PlanRewriter.CollectSize` | src/observer/sql/optimizer/predicate_pushdown_rewriter.cpp:51-63 | pushed and remaining expressions have the nodes of the original, none lost or copied |
| `PlanRewriter.PushedAre` | src/observer/sql/optimizer/predicate_pushdown_rewriter.cpp:102-123 | what is pushed are equalities with a field on a side |
| `PlanRewriter.FieldEqualityGoes` | src/observer/sql/optimizer/predicate_pushdown_rewriter.cpp:73-124 | and every such equality in an AND is pushed, with nothing left of it |
| `PlanRewriter.PushDownPredicates` | src/observer/sql/optimizer/predicate_pushdown_rewriter.cpp:20-65 | the pushdown rule computes the function that the lemmas below are about |
| `PlanRewriter.PushdownRows` | src/observer/sql/optimizer/predicate_pushdown_rewriter.cpp:20-65 | after a pushdown the rows are those of the table under the predicate alone |
| `PlanRewriter.PushdownExact` | src/observer/sql/operator/table_get_logical_operator.cpp:21-24 | a pushdown keeps the rows if and only if the overwritten predicates of the scan never matter |
| `PipelineRuns.PushdownTwice` | src/observer/sql/operator/table_get_logical_operator.cpp:21-24 | a SELECT whose plan is pushed down twice by the loop, and a table on which a row comes back that the first pushed predicate rejects |
| `SelectStops.SelectStopsAtFixpoint` | src/observer/sql/optimizer/optimize_stage.cpp:164-188 | on every SELECT as built, over any tables, the loop ends at a plan that a further pass neither changes nor reports as changed |
| `PipelineRuns.StopsEarly` | src/observer/sql/optimizer/optimize_stage.cpp:164-188 | a SELECT on whose plan the loop stops although a further pass changes it |
| `PlanRewriter.RemoveRows` | src/observer/sql/optimizer/predicate_rewrite.cpp:18-58 | splicing out a true predicate keeps the rows, and so does cutting off a false one unless its parent is a predicate |
| `PlanRewriter.RewriteExpressions` | src/observer/sql/optimizer/expression_rewriter.cpp:26-59 | the expression pass over a whole operator tree, with its change flag |
| `PlanRewriter.RewriteOperator` | src/observer/sql/optimizer/rewriter.cpp:28-64 | one pass of all rules over a tree, with its change flag |
| `PlanRewriter.RewritePlan` | src/observer/sql/optimizer/rewriter.cpp:28-64 | operators plus expression nodes never grow in a pass, and drop in every pass that reports a change |
| `PlanRewriter.PassRows` | src/observer/sql/optimizer/rewriter.cpp:28-64 | a pass keeps the row sequence if each rule it applies meets its condition: the guard at conjunctions, an empty scan at pushdowns, no predicate above a false predicate |
| `PlanRewriter.UnreportedPass` | src/observer/sql/optimizer/rewriter.cpp:28-64 | a pass that reports no change leaves the plan as it is when no conjunction in it has a boolean constant child, and makes it smaller otherwise |
| `PlanRewriter.StopsStable` | src/observer/sql/optimizer/optimize_stage.cpp:164-188 | the last pass of the loop changes nothing if and only if no conjunction before it has a boolean constant child; the result is then a fixpoint |
| `PlanClass.PassGood` | src/observer/sql/optimizer/rewriter.cpp:28-64 | a pass over a good plan meets all conditions and leaves a good plan |
| `PlanClass.GoodRunSafe` | src/observer/sql/optimizer/optimize_stage.cpp:164-188 | on a good plan every pass of the whole loop meets all conditions |
| `PlanRewriter.RewriteUntilStable` | src/observer/sql/optimizer/optimize_stage.cpp:164-188 | the do-while loop ends on every plan, and keeps the rows whenever each rule it applies meets its condition |
| `PlanRewriter.OptimizeSound` | src/observer/sql/optimizer/optimize_stage.cpp:164-188 | the whole loop keeps the row sequence if each rule applied in any pass meets its condition |
| `SelectPipeline.PlanGood` | src/observer/sql/optimizer/logical_plan_generator.cpp:205-454 | plans generated from optimizable units are good, pushdown's empty predicate list included |
| `SelectPipeline.PlanAndRewrite` | src/observer/sql/optimizer/optimize_stage.cpp:164-202 | generated and rewritten, the plan delivers the cross product filtered by all units the generator keeps, in row-major order, if each rule applied meets its condition, as it does for optimizable units |
| `SelectPipeline.AsBuiltGood` | src/observer/sql/stmt/filter_stmt.cpp:503-565 | comparisons, EXISTS results, predicates evaluated per row and IN and NOT IN lists are manageable, but for a constant that is looked for in several values and not found |
| `SelectPipeline.AsBuiltRows` | src/observer/sql/stmt/filter_stmt.cpp:918-994 | for such units the pipeline delivers the filtered cross product whenever the units without tables are arranged; `SelectExact.RowsExact` is the exact condition |
| `TopUnits.UnitsSettle` | src/observer/sql/optimizer/conjunction_simplification_rule.cpp:28-82 | the AND over any list of conditions without tables settles at the first visit, or reports a change then and settles at the third; what is left keeps exactly the rows that `Delivered` says |
| `TopUnits.AfterKnown` | src/observer/sql/optimizer/comparison_simplification_rule.cpp:18-35 | when a condition without tables becomes a constant, and which: a comparison after one visit, a list after two, a subquery never |
| `SelectExact.SelectDelivers` | src/observer/sql/optimizer/optimize_stage.cpp:164-202 | for any SELECT as built, over any tables: exactly which rows of the tables are delivered, in row-major order |
| `SelectExact.RowsExact` | src/observer/sql/optimizer/optimize_stage.cpp:164-202 | these are the rows of all units that the generator keeps, if and only if the condition that is left instead of a false one keeps no row, or, with none false, every list of several values has its value or no row passes the rest |
| `SelectExact.WhereExact` | src/observer/sql/optimizer/logical_plan_generator.cpp:272-273 | they are those of the whole WHERE clause, if and only if that holds and the dropped literal comparisons are true, or one is false and no row is delivered |
| `SelectExact.SubqueriesExact` | src/observer/sql/stmt/filter_stmt.cpp:916-935 | with subqueries only: right if and only if no EXISTS is false or the first that is not true keeps no row of the tables |
| `SelectExact.ValueListExact` | src/observer/sql/stmt/filter_stmt.cpp:975-984 | with one list of values: right if and only if the value is found, the list has one value, or no row of the tables is left |
| `SelectExact.LostValue` | src/observer/sql/optimizer/conjunction_simplification_rule.cpp:37-66 | a value that is not among several: all rows of the tables are delivered, none should be |
| `SelectExact.TautologyWins` | src/observer/sql/stmt/filter_stmt.cpp:1101-1106 | `1 = 1` before an EXISTS without rows: all rows are delivered, none should be |
| `SelectExact.SubqueryWins` | src/observer/sql/stmt/filter_stmt.cpp:1101-1106 | a correlated subquery before `1 = 2`: its rows are delivered, none should be |
| `SelectPipeline.ColumnList` | src/observer/sql/stmt/filter_stmt.cpp:975-984 | every IN list on a column is manageable, one value as in `t.a IN (5)` included |
| `SelectPipeline.FoundValue` | src/observer/sql/stmt/filter_stmt.cpp:975-984 | a list of values that holds the value looked for, as in `1 IN (1, 2)`, is manageable |
| `SelectPipeline.TrueExists` | src/observer/sql/stmt/filter_stmt.cpp:918-922 | a correlated subquery followed by an EXISTS found true is optimizable |
| `NestedLoopJoin.Join.TryCacheRight` | src/observer/sql/operator/join_physical_operator.cpp:25-87 | caches all rows of a table scan that opens and has rows; otherwise leaves the child closed with the calls of `open` and `close` it has cost |
| `NestedLoopJoin.Join.RightNext` | src/observer/sql/operator/join_physical_operator.cpp:183-234 | cached and reopened right sides deliver the same rows in every round; a failing `close`, `open` or `next` is reported |
| `NestedLoopJoin.Join.Next` | src/observer/sql/operator/join_physical_operator.cpp:113-141 | each call delivers the next pair of the run, or the code that ends it |
| `NestedLoopJoin.Join.Drain` | src/observer/sql/operator/join_physical_operator.cpp:89-141 | the whole run, whichever calls of the children fail: the pairs in row-major order as far as they come, and all of them if it ends with end of data |
| `NestedLoopJoin.NothingLost` | src/observer/sql/operator/join_physical_operator.cpp:113-141 | whatever fails, the tuples are a prefix of all pairs, and end of data means all pairs |
| `NestedLoopJoin.AllPairs` | src/observer/sql/operator/join_physical_operator.cpp:113-234 | all pairs followed by end of data, if and only if the left child ends normally or is not read to its end, the right one does or is cached, and every round can start; an empty right side included |
| `GroupBy.GroupRows` | src/observer/sql/operator/group_by_physical_operator.cpp:219-336 | each row is counted and summed up in the one group of its key; groups are in order of first occurrence |
| `GroupBy.KeysDistinct` | src/observer/sql/operator/group_by_physical_operator.cpp:247-267 | groups have different keys, and every row's key has a group |
| `GroupBy.KeysInOrder` | src/observer/sql/operator/group_by_physical_operator.cpp:247-267 | groups are in order of their first rows |
| `GroupBy.MembersPick` | src/observer/sql/operator/group_by_physical_operator.cpp:247-336 | the members of a group are exactly the rows with its key, in order |
| `GroupBy.GroupIs` | src/observer/sql/operator/group_by_physical_operator.cpp:225-268 | a group has the values of its first row, the results over its rows, and their number |
| `GroupBy.ValuesAt` | src/observer/sql/operator/group_by_physical_operator.cpp:225-245 | the group values are the cells of the fields in order, 0 for one that is not there |
| `GroupBy.SizesAddUp` | src/observer/sql/operator/group_by_physical_operator.cpp:268-268 | the row counts of the groups add up to the number of input rows |
| `GroupBy.AggregateMeans` | src/observer/sql/operator/group_by_physical_operator.cpp:272-300 | COUNT, SUM, AVG, MAX and MIN of a group are those of its non-null values |
| `GroupBy.CountStarMeans` | src/observer/sql/operator/group_by_physical_operator.cpp:274-277 | COUNT(*) is the number of rows of the group |
| `GroupBy.KeyIsTexts` | src/observer/sql/operator/group_by_physical_operator.cpp:225-245 | two rows share a key if and only if they agree on the text of every group value, as long as no text holds the separator |
| `GroupBy.KeyIsValues` | src/observer/sql/operator/group_by_physical_operator.cpp:225-245 | they share it if and only if they agree on every value, when the texts of each column tell its values apart |
| `GroupBy.GroupsAreByValue` | src/observer/sql/operator/group_by_physical_operator.cpp:225-245 | a group then holds exactly the rows with its values |
| `GroupBy.NullMeetsText` | src/observer/sql/parser/value.cpp:239-243 | a null and the characters `NULL` form one group |
| `GroupBy.SeparatorMeetsText` | src/observer/sql/operator/group_by_physical_operator.cpp:237-237 | two different pairs of characters with the separator inside form one group |
| `GroupBy.PassingPicks` | src/observer/sql/operator/group_by_physical_operator.cpp:405-414 | HAVING keeps exactly the groups that it accepts, each as often as it is there, in order |
| `GroupBy.Compute` | src/observer/sql/operator/group_by_physical_operator.cpp:338-414 | the result is the finished groups that HAVING accepts, all of them and no others, in order |
| `GroupBy.Operator.Next` | src/observer/sql/operator/group_by_physical_operator.cpp:189-434 | the n-th call delivers the n-th group, later calls end of data |
| `FastSelfJoin.Collect` | src/observer/sql/executor/create_view_executor.cpp:421-448 | for every non-null key the number of its records and the sum of their values |
| `FastSelfJoin.Compute` | src/observer/sql/executor/create_view_executor.cpp:457-473 | whatever the order of the hash map, count and sum over all pairs of equal keys |
| `FastSelfJoin.MatchedJoin` | src/observer/sql/executor/create_view_executor.cpp:283-356 | a query the matcher accepts joins records exactly on equal, non-null keys |
| `FastSelfJoin.ShapedMatches` | src/observer/sql/executor/create_view_executor.cpp:283-356 | every query of the documented form is accepted, whichever alias is named first, with its relation and fields |
| `FastSelfJoin.MatchedIsShaped` | src/observer/sql/executor/create_view_executor.cpp:283-356 | and no other query with two aliases |
| `FastSelfJoin.PairsCounted` | src/observer/sql/executor/create_view_executor.cpp:459-463 | the sum of squared counts is the number of joined pairs; the sums of values over the pairs follow from the per-key sums |
| `FastSelfJoin.Data` | src/observer/sql/executor/create_view_executor.cpp:467-473 | the query's sum is null exactly when no joined record has a value |
| `FastSelfJoin.Materialize` | src/observer/sql/executor/create_view_executor.cpp:358-473 | for every accepted query and table: the count is the query's; the stored sum is that of the values over all pairs, null without pairs, and is the query's if and only if a record with a key implies one with a key and a value |
| `FastSelfJoin.SumsDiffer` | src/observer/sql/executor/create_view_executor.cpp:467-468 | on every table with keys and no value the query's sum is null and the stored one is 0 |
| `FastSelfJoin.NoValueDiffers` | src/observer/sql/executor/create_view_executor.cpp:467-468 | a table of one record on which they differ, for every accepted query over two fields |
| `StagePool.RunsKeep` | deps/common/seda/stage.cpp:84-233 | in every state of every run: queue length = run-queue entries + pending schedules + workers about to dequeue + parked + dropped events, `event_ref_` = the scheduled ones + dropped + handlers, idle counts, and an awake worker for every non-empty run queue |
| `StagePool.KeepsStep` | deps/common/seda/thread_pool.cpp:267-313 | every critical section of every thread keeps that invariant |
| `StagePool.KeepsSchedule` | deps/common/seda/thread_pool.cpp:220-236 | `schedule` keeps it, also when it signals nobody |
| `StagePool.KeepsConnect` | deps/common/seda/stage.cpp:84-100 | overwriting `event_ref_` with the backlog keeps it when no `disconnect` is waiting |
| `StagePool.Safe` | deps/common/seda/stage.cpp:152-218 | `remove_event` and `schedule` never meet an empty queue, `th_pool_` is never null when used, events leave in order of arrival, each once |
| `StagePool.DisconnectedIsQuiet` | deps/common/seda/stage.cpp:126-142 | when `disconnect` has finished nothing of the stage is scheduled, dequeued or handled anywhere |
| `StagePool.NoLostWakeup` | deps/common/seda/thread_pool.cpp:220-275 | work on a run queue is never left to sleeping workers alone; a `disconnect` that waits has something to wait for |
| `StagePool.CallsGoOn` | deps/common/seda/thread_pool.cpp:220-313 | nobody is stuck inside a call: in every such state a thread that has to schedule, fetch, remove or release can do so, with some wake-up |
| `StagePool.EventAdded` | deps/common/seda/stage.cpp:152-171 | an added event is the last of the queue, and on a connected stage it is referenced and about to be scheduled; nothing else changes |
| `StagePool.StageScheduled` | deps/common/seda/thread_pool.cpp:220-236 | one more entry at the end of the run queue, and no thread but a sleeping worker of that pool is woken |
| `StagePool.WorkerFetches` | deps/common/seda/thread_pool.cpp:267-290 | a worker takes the first entry of its run queue, and sleeps when there is none |
| `StagePool.WorkerTakes` | deps/common/seda/stage.cpp:206-218 | a worker that has a stage takes its first event |
| `StagePool.EventReleased` | deps/common/seda/stage.cpp:225-233 | one reference less; the last one of a disconnected stage wakes the waiting `disconnect` |
| `StagePool.StageDisconnects` | deps/common/seda/stage.cpp:126-142 | the stage is disconnected at once, and `disconnect` finishes when nothing is referenced |
| `StagePool.DroppedIsStuck` | deps/common/seda/stage.cpp:103-108 | once `connect` has dropped its backlog, `disconnect` waits in every later state |
| `StagePool.FinishesUnlessDropped` | deps/common/seda/stage.cpp:134-137 | once the scheduled work is done, `disconnect` can finish if and only if nothing was dropped |
| `StagePool.RawStepExact` | deps/common/seda/stage.cpp:84-100 | a step as the source guards it keeps that invariant, if and only if it is not a `connect` that meets a waiting `disconnect` or a `set_pool` that leaves run-queue entries behind |
| `StagePool.RawExact` | deps/common/seda/stage.cpp:84-142 | over whole runs of such steps: the invariant holds throughout if and only if no step is of that kind, and the runs are then those of all other rows |
| `StagePool.ReconnectRun` | deps/common/seda/stage.cpp:95-137 | a run with a second `connect` while `disconnect` waits, after which `event_ref_` is -1 |
| `StagePool.PatientExactly` | deps/common/seda/stage.cpp:84-142 | a run drops nothing and leaves no `connect` waiting to drop, if and only if nobody in it disconnects a stage before its `connect` has looked again |
| `StagePool.DoomedHangs` | deps/common/seda/stage.cpp:103-142 | once someone has, `disconnect` of that stage waits in every later state of every run |
| `StagePool.PatientRunsDropNothing` | deps/common/seda/stage.cpp:84-142 | patient runs drop nothing, whatever their length |
| `StagePool.ImpatientRun` | deps/common/seda/stage.cpp:95-108 | a run in which the backlog is dropped |
| `TimerStage.LessIsStrictTotalOrder` | deps/common/seda/timer_stage.cpp:127-134 | tokens are strictly and totally ordered, in agreement with their times |
| `TimerStage.CollectDue` | deps/common/seda/timer_stage.cpp:448-456 | the loop takes the due entries and leaves exactly those whose time is still to come |
| `TimerStage.RunsKeep` | deps/common/seda/timer_stage.cpp:358-508 | every interleaving keeps the queue ordered, `num_events_` equal to its size, and the placement, faithfulness and attentiveness below |
| `TimerStage.EachAtMostOnce` | deps/common/seda/timer_stage.cpp:358-475 | a registered callback waits, has fired once or was cancelled, and only one of these; none fires before its time |
| `TimerStage.RegisteredWaits` | deps/common/seda/timer_stage.cpp:358-388 | a made token waits with its callback once it is registered, every other entry kept in order |
| `TimerStage.CancelledGoes` | deps/common/seda/timer_stage.cpp:390-412 | a cancelled entry is taken out, every other one kept in order; a token that does not wait changes nothing |
| `TimerStage.CancelledNeverFires` | deps/common/seda/timer_stage.cpp:390-475 | cancelled while it waits, a callback never fires in any later state of any run |
| `TimerStage.CheckFiresWhatIsDue` | deps/common/seda/timer_stage.cpp:433-475 | a check fires exactly the due callbacks, in token order |
| `TimerStage.FiresInOrder` | deps/common/seda/timer_stage.cpp:433-475 | of two callbacks that wait together the one with the smaller token fires first, unless it is cancelled |
| `TimerStage.NeverOversleeps` | deps/common/seda/timer_stage.cpp:477-502 | with no signal on its way the thread sleeps no longer than to the earliest token, and not through a shutdown |
| `TimerStage.CheckSleeps` | deps/common/seda/timer_stage.cpp:477-502 | after a check the thread sleeps exactly until the first token, or has stopped after a shutdown |
| `TimerStage.TriggerSignals` | deps/common/seda/timer_stage.cpp:414-423 | a trigger is used up and wakes a sleeping thread |
| `TimerStage.ShutdownStops` | deps/common/seda/timer_stage.cpp:310-345 | a shutdown stops the thread after one more check, from sleep too |
| `SharedMutex.RunsKeep` | deps/common/lang/mutex.cpp:391-448 | every interleaving keeps the counters equal to the locks held and no waiter forgotten |
| `SharedMutex.Exclusion` | deps/common/lang/mutex.cpp:391-448 | a writer holds the lock alone, is its owner, and the recursion count is its unmatched locks |
| `SharedMutex.TryLockAnswers` | deps/common/lang/mutex.cpp:400-408 | the attempt answers true if and only if no thread holds the write lock, with one more read lock then and no change otherwise |
| `SharedMutex.LockSharedGives` | deps/common/lang/mutex.cpp:391-398 | a read lock is given if and only if no thread holds the write lock; the thread waits otherwise |
| `SharedMutex.LockGives` | deps/common/lang/mutex.cpp:419-432 | a write lock is given if and only if nobody holds the lock or the thread has it already; the thread waits otherwise |
| `SharedMutex.UnlockTakes` | deps/common/lang/mutex.cpp:410-448 | each unlock undoes one lock of its own thread and of no other |
| `SharedMutex.NoLostReader` | deps/common/lang/mutex.cpp:391-398 | while no writer holds the lock, every waiting reader was notified and its next look succeeds |
| `SharedMutex.NoLostWriter` | deps/common/lang/mutex.cpp:419-448 | when the lock is free and a writer waits, some writer was notified and its next look succeeds |
| `SharedMutex.UpgradesBlock` | deps/common/lang/mutex.cpp:391-432 | a reader that asks for the write lock, or a writer that asks for a read lock, waits for ever |
| `SharedMutex.UpgradeArises` | deps/common/lang/mutex.cpp:391-432 | a thread gets into that state by asking for the other lock |
| `LockTrace.FollowFinds` | deps/common/lang/mutex.cpp:64-90 | the recursion finds every way back to the thread within its depth, and nothing else |
| `LockTrace.ReportsCycles` | deps/common/lang/mutex.cpp:92-124 | on consistent maps: reported if and only if the thread locks its own non-recursive mutex or is on a cycle of at most `mMaxBlockTids` threads |
| `LockTrace.CompleteForFewThreads` | deps/common/lang/mutex.cpp:64-124 | if no more than `mMaxBlockTids` threads wait, every cycle is reported, however long |
| `LockTrace.InsertedConsistent` | deps/common/lang/mutex.cpp:169-188 | tracing a lock keeps the maps consistent if and only if the mutex was free or the thread's own |
| `LockTrace.UnlockedConsistent` | deps/common/lang/mutex.cpp:210-220 | the same for tracing an unlock |
| `LockTrace.TimedConsistent` | deps/common/lang/mutex.cpp:126-155 | counting waits keeps them consistent unless the mutex is free and was often waited for |
| `LockTrace.RecursiveUnlockForgets` | deps/common/lang/mutex.cpp:173-217 | a recursive mutex locked twice is forgotten by the first unlock |
| `LockTrace.LateUnlockLosesOwner` | deps/common/lang/mutex.h:182-191 | an unlock traced after another thread's lock erases the new owner |
| `LockTrace.RunsFaithful` | deps/common/lang/mutex.h:161-191 | over whole runs of the lock, trylock and unlock macros: the maps know every owner throughout, if and only if no lock is traced before the unlock that made room for it, and no often awaited mutex is checked that the tracer takes for free |
| `LockTrace.RunsRecorded` | deps/common/lang/mutex.h:161-191 | over whole runs: `mWaitLocks` holds exactly the threads between their check and their traced lock, each with its mutex, and `mWaitTimes` counts them, if and only if no trylock is refused |
| `LockTrace.LockThenUnlock` | deps/common/lang/mutex.h:161-191 | on a free mutex the lock macro makes the thread its owner, really and in the maps, and the unlock macro undoes both |
| `LockTrace.CyclesAreReal` | deps/common/lang/mutex.cpp:64-90 | then every thread on a cycle of the maps really waits, for a mutex that the next one really holds |
| `LockTrace.ReportsAreReal` | deps/common/lang/mutex.cpp:92-124 | then what is reported is a cycle of threads that really wait |
| `LockTrace.RefusedMisleads` | deps/common/lang/mutex.h:172-180 | after a refused trylock a deadlock is reported although the thread does not wait |
| `LockTrace.Tracer.Check` | deps/common/lang/mutex.cpp:157-167 | the verdict on the maps with the new wait recorded, and the new maps, as one step |
| `LockTrace.Tracer.InsertLock` | deps/common/lang/mutex.cpp:169-188 | the new maps, and when their owners are consistent; `RunsRecorded` says what they mean for waits and times |
| `LockTrace.Tracer.TryLock` | deps/common/lang/mutex.cpp:198-208 | a locked mutex is left alone; consistency is kept |
| `LockTrace.Tracer.Unlock` | deps/common/lang/mutex.cpp:210-220 | the new maps, and when they are consistent |
| `LruCache.Cache.Get` | deps/common/lang/lru_cache.h:100-110 | returns the key's value; its entry comes first, the others keep their order |
| `LruCache.Cache.Put` | deps/common/lang/lru_cache.h:112-124 | the entry comes first, the others keep their order |
| `LruCache.Cache.Remove` | deps/common/lang/lru_cache.h:126-132 | exactly the key's entry goes |
| `LruCache.Cache.Touch` | deps/common/lang/lru_cache.h:161-182 | relinking moves a node to the front of the list and keeps list, ends and hash set in agreement |
| `LruCache.Cache.Attach` | deps/common/lang/lru_cache.h:184-199 | a new node becomes the first |
| `LruCache.Cache.Unlink` | deps/common/lang/lru_cache.h:201-220 | a node leaves list and hash set |
| `LruCache.Cache.ForEach` | deps/common/lang/lru_cache.h:140-148 | visits the entries in order of recency until the visitor stops |
| `LruCache.Cache.ForEachReverse` | deps/common/lang/lru_cache.h:150-158 | visits them in reverse |
| `LruCache.Cache.Count` | deps/common/lang/lru_cache.h:95-98 | the size of the hash set is the length of the list |
| `LruCache.UsedOnMap` | deps/common/lang/lru_cache.h:100-110 | using a key keeps the map that the entries stand for |
| `LruCache.PutOnMap` | deps/common/lang/lru_cache.h:112-124 | putting sets the key in the map |
| `LruCache.OthersOnMap` | deps/common/lang/lru_cache.h:126-132 | removing deletes the key from the map |
| `LruCache.RunRefinesMap` | deps/common/lang/lru_cache.h:100-132 | after any run of operations keys are distinct, the entries are the bindings of a plain map, and the key used last is first |
| `LruCache.Run` | deps/common/lang/lru_cache.h:100-132 | any run on a new cache leaves the entries of that result and gives the answers of a plain map |
| `RingBuffers.RingBuffer.Write` | src/observer/net/ring_buffer.cpp:93-126 | appends as much of the data as there is room for, across the end of the buffer, capacity 0 included |
| `RingBuffers.RingBuffer.Read` | src/observer/net/ring_buffer.cpp:35-57 | moves the oldest bytes to the caller's memory and touches nothing else there |
| `RingBuffers.RingBuffer.Peek` | src/observer/net/ring_buffer.cpp:59-76 | the oldest bytes as far as they lie in one piece: all of them, or up to the end of the buffer |
| `RingBuffers.RingBuffer.Forward` | src/observer/net/ring_buffer.cpp:78-91 | drops exactly that many of the oldest bytes, or refuses |
| `RingBuffers.RingBuffer.ReadPos` | src/observer/net/ring_buffer.h:88-88 | the modulus gives the place of the oldest byte |
| `BufferedWriters.BufferedWriter.FlushInternal` | src/observer/net/buffered_writer.cpp:111-148 | sends at least the bytes asked for or all, conserving bytes whatever the descriptor answers |
| `BufferedWriters.BufferedWriter.Flush` | src/observer/net/buffered_writer.cpp:98-109 | on success nothing is left; fails exactly when the descriptor failed |
| `BufferedWriters.BufferedWriter.Write` | src/observer/net/buffered_writer.cpp:52-66 | accepts a prefix, not empty if there is capacity |
| `BufferedWriters.BufferedWriter.WriteN` | src/observer/net/buffered_writer.cpp:68-96 | always ends; accepts all on success and a prefix otherwise; succeeds if and only if the descriptor did and there is capacity or nothing to write |
| `BufferedWriters.BufferedWriter.Close` | src/observer/net/buffered_writer.cpp:36-50 | on success everything accepted was sent |
| `Md5.Encode` | deps/common/math/md5.cpp:329-339 | the loop writes every word as its four digits to base 256, low-order digit first |
| `Md5.Decode` | deps/common/math/md5.cpp:345-352 | the loop reads words whose digits are the four bytes, low-order byte first |
| `Md5.EncodeDecode` | deps/common/math/md5.cpp:329-352 | decoding undoes encoding |
| `Md5.DecodeEncode` | deps/common/math/md5.cpp:329-352 | encoding undoes decoding |
| `Md5.CountAdds` | deps/common/math/md5.cpp:177-180 | with carry and shift the two words count bits modulo 2^64 |
| `Md5.Context.Update` | deps/common/math/md5.cpp:170-200 | state, count and buffer are those of the message with the new bytes appended |
| `Md5.Context.Final` | deps/common/math/md5.cpp:206-230 | the digest of the message padded as sections 3.1 and 3.2 of RFC 1321 say; the context is wiped |
| `Md5.PaddedShape` | deps/common/math/md5.cpp:206-222 | the padded message is the message, the byte 0x80, zeros, and the eight digits of its length in bits modulo 2^64, low-order byte first |
| `Md5.StartBytes` | deps/common/math/md5.cpp:154-164 | the initial state, as the bytes of section 3.3 of RFC 1321 |
| `Md5.DigestOf` | deps/common/math/md5.cpp:154-230 | the digest does not depend on the pieces in which the message arrives |
| `Md5.GuardStops` | deps/common/math/md5.cpp:191-192 | the 32-bit loop test stops at the right place if and only if it does not wrap around there |
| `Md5.GuardFails` | deps/common/math/md5.cpp:191-192 | a length at which it is still true at the last place, where no whole block is left |
| `DateTimes.YmdOfJulian` | deps/common/time/datetime.h:249-269 | `get_ymd` undoes `julian_date` on every date from March 1 of the year -4800 on |
| `DateTimes.JulianOfYmd` | deps/common/time/datetime.h:249-269 | every day number from -32044 on is that of the valid date `get_ymd` returns |
| `DateTimes.JulianIsNumber` | deps/common/time/datetime.h:249-255 | the formula counts the days of the calendar, month by month and year by year |
| `DateTimes.JulianOrder` | deps/common/time/datetime.h:249-255 | a date is earlier exactly when its day number is smaller |
| `DateTimes.JulianNext` | deps/common/time/datetime.h:249-255 | the next calendar day has the next day number |
| `DateTimes.HmsRoundTrip` | deps/common/time/datetime.h:111-118 | `make_hms` undoes `get_hms`, whose parts are in range |
| `DateTimes.HmsUnique` | deps/common/time/datetime.h:221-224 | `get_hms` undoes `make_hms` |
| `DateTimes.DateTime.AddSeconds` | deps/common/time/datetime.h:187-202 | the instant moves by exactly the seconds if and only if the sum is below two days, in particular from every time of day |
| `DateTimes.MaxDayIsMonthLength` | deps/common/time/datetime.cpp:232-250 | the table of month lengths is the calendar's, negative leap years included |
| `DateTimes.CarryDays` | deps/common/time/datetime.cpp:211-226 | the carry loop ends for every day sum, on a day that the month it reaches has in the code's table; where it ends is what `DayExact` is about |
| `DateTimes.DateTime.AddDuration` | deps/common/time/datetime.cpp:158-230 | for every date, time and duration: the day and the clock that are stored |
| `DateTimes.DayExact` | deps/common/time/datetime.cpp:176-227 | the stored day is that of Appendix E of W3C XML Schema Part 2, if and only if the days do not lead back over January 1 from a real month, or make up for the 28 days the code gives to months at or below zero |
| `DateTimes.MonthsOnlyExact` | deps/common/time/datetime.cpp:176-200 | years and months alone: right if and only if the month sum is at least 1 or falls on a January, the day is at most 28, or the month reached has 28 days |
| `DateTimes.ClockConserves` | deps/common/time/datetime.cpp:184-198 | the clock and its carry of days hold exactly the seconds of the start and the duration |
| `DateTimes.ClockExact` | deps/common/time/datetime.cpp:184-198 | the clock is that of Appendix E if and only if, of what the three sums leave in hours, minutes and seconds, the first that is not zero is positive; the carry of days is then the right one |
| `DateTimes.BeforeMidnight` | deps/common/time/datetime.cpp:184-198 | from the first minute of a day back over midnight the clock is stored as a negative number with no day carried |
| `DateTimes.DurationExact` | deps/common/time/datetime.cpp:158-230 | day and clock are those of Appendix E, for whole seconds, if and only if that holds and the day is right with the days of the duration and of the whole clock |
| `DateTimes.NonNegativeIsRight` | deps/common/time/datetime.cpp:158-230 | every duration without negative parts is added as Appendix E says, from every date and time of day |
| `DateTimes.MonthArithmetic` | deps/common/time/datetime.cpp:176-182 | truncating month arithmetic gives the calendar's month when the month sum is at least 1 or falls on a January, and otherwise the same month written as one at or below zero of the year after |
| `DateTimes.LessMonthsDay` | deps/common/time/datetime.cpp:176-227 | months that lead to the December before lose exactly the days after the 28th |
| `DateTimes.BackFromJanuary` | deps/common/time/datetime.cpp:200-227 | a date and a negative duration that end three days early |
| `DateTimes.BackFromMarch` | deps/common/time/datetime.cpp:200-227 | a date and a negative duration with the same month sum that end right |

## Left out

- Evaluation errors of predicates: `Rows` drops a row whose predicate fails, the server aborts the query; pushdown changes which rows are evaluated first. Predicates evaluated per row never fail.
- Conversions, comparison and arithmetic of `Value`, scalar functions and subqueries: parameters of the model (`Env`), so the results hold for any of them.
- Aggregation expressions, plain subquery operands and null operand pointers inside expression trees.
- Update in place of expression and operator trees: the rewriting methods return the new tree.
- Expressions of a projection: the rewriter does not see them, because `ProjectLogicalOperator` keeps a list of its own.
- ExprRewriter.SimplifyExact: necessity of the condition is stated for children that are constants or independent subquery predicates; for other children a wrong choice may by chance have the same value.
- SelectPipeline.PlanAndRewrite: that each rule meets its condition is sufficient for the rows; the exact condition is proved for all units that statement resolution builds (`SelectExact.RowsExact`), not for any other plan, where two wrong steps may cancel out.
- GroupBy.AggregateMeans: integer columns only, with exact sums; characters, dates and floating point are not modelled.
- FastSelfJoin.Materialize: exact unbounded integers; neither the 32-bit result cells nor floating point, and no scan errors.
- StagePool.RunsKeep: runs in which no step disturbs a waiting `disconnect`, which `StagePool.RawExact` shows to be exactly the ones that keep the counts; `initialize`, `cleanup` and event handlers are not modelled beyond the calls they make.
- Growing and killing of thread pools: the number of workers is fixed.
- TimerStage.RunsKeep: nonces do not wrap around; when the clock reads what is a parameter of each check.
- Md5.Context.Update: `MD5Transform` is an arbitrary function of four words and 64 bytes; lengths at which the loop test wraps around are excluded, because there the source reads past its input (`Md5.GuardStops` says which they are).
- Md5.DigestOf: pieces of at most 2^32 - 64 bytes; `Md5.Context.Update` covers exactly the longer ones on which the loop test does not wrap around.
- BufferedWriters.BufferedWriter.WriteN: a descriptor gives finitely many answers and fails when they run out, so an endless sequence of retries is not modelled.
- DateTimes.DurationExact: for dates from the year -4797 on, the days of the walk included, and whole seconds; parsing of durations is left out.
- LockTrace.Tracer.Check: one step, although the source changes `mWaitLocks`, `mWaitTimes` and `mLocks` under a read lock, so that two threads may be in it at once.
- LockTrace.RunsFaithful: locking and unlocking of mutexes that are not recursive.
- NestedLoopJoin.Join.Drain: `close` of the join itself, the error codes beyond success, end of data and failure, and children that deliver other rows when opened again.
- Storage, transactions, indexes, the parser, statement resolution, UPDATE, LOAD DATA and view refresh.
- Sockets, communicators, logging, configuration, metrics, string helpers and scripts.
