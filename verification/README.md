# Verified model of miniob's cores

miniob is a teaching SQL database on a staged, event-driven runtime. This project models its hard
cores and proves what they are for.

- **Query rewrite and execution** (`Expressions`, `TupleCells`, `Comparisons`, `ExprRewriting`, `FlatFilters`, `LogicalPlans`,
  `RewriteTheorems`, `Optimizer`, `Planner`, `PhysicalPlans`, `Volcano`, `Generator`,
  `Permutations`, `EndToEnd`). A SELECT is planned, rewritten until no rule reports a change, lowered
  to open/next/close operators and drained. `Planner.SqlAnswer` says what the statement asks for
  without plans or tuples: the combinations of records, the first table varying slowest, that satisfy
  the WHERE clause, with each output cell read from its table. `EndToEnd.ExecuteSelect` runs the
  loops and operator objects. If it reaches the end, as it does unless storage fails, it has returned
  those rows exactly when `Planner.KeepsNothingWrong` holds (see below), in that order if no index is used
  and in some order otherwise; if storage fails, some of them and an error. `Comparisons` ties the WHERE
  clause to the relations of integers, with the source's own comparison of cells.
- **Stages and thread pool** (`Seda`). The locked sections of `stage.cpp` and `thread_pool.cpp` are the
  steps of a state machine over any number of stages, producers and workers; spurious wakeups are
  steps too. The assertions of the code are theorems over every run. **Timer stage** (`Timer`): the
  same for `timer_stage.cpp`.
- **MD5** (`Md5`, `Md5Vectors`). The buffered, chunked update against the digest of the whole padded
  message (sections 3.1 to 3.5 of RFC 1321), with the C widths written out; the 64 lines against the
  RFC's schedule, and two of its test vectors (appendix A.5) worked out to the digest.
- **Calendar and durations** (`Calendar`, `Durations`). Julian day numbers and dates in both
  directions, and the XML Schema duration loop, with truncating division.
- **Pointer and graph structures** (`Recency`, `LruCache`, `LockTrace`). The LRU cache as linked nodes
  refining a map in order of last use; the lock tracer's maps and its walk of the wait-for graph.

Code that edits state step by step is modelled by classes and loops whose contracts equate their
result with a specification function; the theorems are about those functions. What the original takes
from elsewhere is a parameter: how two cells compare, what an index
scanner yields and the code of each access to storage (`Expressions.Env`), the clock, and the choice of
which waiting thread a signal wakes.

## Where the code does not keep a promise

Each of these is modelled as the code has it, with the exact condition under which the promise holds
and a concrete or general failing case.

- An AND with a false constant is replaced by its first remaining child, not by the constant
  (`conjunction_simplification_rule.cpp:54`), against the comment above it. `SELECT f FROM t WHERE f = 1
  AND 1 = 2` then returns a row. `Planner.RewrittenPlanExact` says exactly when a rewritten plan is
  right on a database; `Planner.WhereGuard` is the test on the WHERE clause that makes it right on all.
- `compare_int` subtracts (`comparator.cpp:22-27`). `<`, `<=`, `>` and `>=` on two integers are right
  exactly when their difference fits an `int` (`Comparisons.CodeRelates`): 2147483647 passes as less than
  -1. `compare_string` reads the byte that follows a common start as a signed `char`: strings compare as
  in a dictionary exactly unless that byte is 128 or more (`TupleCells.StringsOrdered`).
- The block loop of `MD5Update` tests `i + 63 < inputLen` in 32 bits. When the sum wraps at the end of
  the input the loop goes on past it: `Md5.Overruns` is the exact condition, on the bytes already
  buffered and the input length.
- `get_ymd` gives dates from 1 March -4800 on and from nowhere earlier (`Calendar.NumberRoundTrip`).
- `DateTime::operator+=` compares with `>` and leaves 24:00:00 when the time plus the seconds less whole
  days is 24:00 exactly; from there more whole days stay at 24:00 (`Durations.DateTime.AddSeconds`).
- The duration loop, stepping back past January, goes to months 0, -1, ... of the same year and takes
  them to have 28 days. From month 1 or later it reaches the right day exactly when that is not before
  January of the shifted year. Shifting to a month below 1, it does so exactly when
  `Durations.ReachesFromLow` holds: 31 January less a month ends on 28 December
  (`Durations.LateDaysFallShort`).
- `add_duration_date_time` drops the milliseconds of the start (`datetime.cpp:165-172`): the total of
  `Durations.DateTime.AddDuration` is in whole seconds.
- Hours, minutes and seconds added with mixed or negative signs can leave a negative time of day: exactly
  when the days carried go past the seconds (`Durations.ClockIsProper`), as in 23:30 plus an hour less 45
  minutes.
- The lock tracer's owner maps come apart in three ways, and over runs of the lock, unlock and condition
  macros in no other (`LockTrace.MacrosKeepInverse`). `checkLockTimes` reads the owner of a mutex with
  `[]`, which records thread 0 as the owner of a mutex nobody holds. `MUTEX_UNLOCK` releases a mutex
  before it records the release, and another thread's lock may be recorded in between.
  `COND_WAIT_TIMEOUT` records no lock when it times out, and the unlock its thread records later may
  erase the entry of another. Nobody in the repository calls the last; without it the first two are all
  (`LockTrace.UntimedKeepInverse`).

## Model

| member | source | states |
|---|---|---|
| Expressions.GetConjunctionValue | miniob/src/observer/sql/expr/expression.cpp:153-178 | the evaluation loop stops at the first error or deciding child, and gives true for no children |
| Expressions.AndHolds | miniob/src/observer/sql/expr/expression.cpp:153-178 | an AND lets a tuple through exactly when every child does, whatever errors children raise |
| Expressions.CompareCells | miniob/src/observer/sql/expr/expression.cpp:70-101 | a comparison fails exactly for an unknown operator, with GENERIC_ERROR |
| TupleCells.IntsOrdered | miniob/deps/common/lang/comparator.cpp:22-27 | the difference has the sign of one integer against the other if and only if it fits an `int` |
| TupleCells.FarIntsExample | miniob/deps/common/lang/comparator.cpp:22-27 | 2147483647 compares as less than -1 |
| TupleCells.FloatsOrdered | miniob/deps/common/lang/comparator.cpp:29-41 | numbers within the epsilon are equal and others in order, either way round |
| TupleCells.StringsOrdered | miniob/deps/common/lang/comparator.cpp:43-61 | C strings compare as in a dictionary if and only if neither is the start of the other followed by a byte from 128 on |
| TupleCells.StopsAtNul | miniob/deps/common/lang/comparator.cpp:48 | what follows a common NUL is not compared |
| TupleCells.EqualBothWays | miniob/src/observer/sql/expr/tuple_cell.cpp:157-189 | cells of any types compare equal either way round or not at all |
| TupleCells.TrueIsNotZero | miniob/src/observer/sql/expr/tuple_cell.cpp:254-291 | a number counts as true exactly when it does not compare equal to 0, but for the epsilon itself, and a C string exactly when it does not compare equal to the empty one |
| Comparisons.IntsRelated | miniob/src/observer/sql/expr/expression.cpp:70-101 | on integers that `compare` puts in order each of the six operators is its relation |
| Comparisons.CodeRelates | miniob/src/observer/sql/expr/expression.cpp:70-101 | with the code's comparison `=` and `<>` are right on all integers and the other four if and only if the difference fits an `int` |
| Comparisons.AnswerOnInts | miniob/src/observer/sql/optimizer/optimize_stage.cpp:269-298 | where a WHERE clause compares integers that `compare` puts in order, the answer has the rows of exactly the combinations in the relations named, for any tables and any number of comparisons |
| Comparisons.FieldAgainstLiteral | miniob/src/observer/sql/optimizer/optimize_stage.cpp:269-298 | for `field op literal` with the code's comparison and no integer too far from the literal, the combinations kept are those whose integer stands in that relation to it |
| Expressions.ColumnOf | miniob/src/observer/sql/expr/tuple.h:117-123 | a column name means its first occurrence in the schema |
| ExprRewriting.ConjunctionRule | miniob/src/observer/sql/optimizer/conjunction_simplification_rule.cpp:28-82 | the rule never grows an expression, and one it reports shrinks it |
| ExprRewriting.ScanSize | miniob/src/observer/sql/optimizer/conjunction_simplification_rule.cpp:40-71 | erasing true constants or absorbing at a false one leaves no more nodes than before |
| ExprRewriting.FoldKeeps | miniob/src/observer/sql/expr/expression.cpp:103-122 | folding a comparison of literals keeps its value on every tuple and leaves one node of three |
| ExprRewriting.RewriteExpr | miniob/src/observer/sql/optimizer/expression_rewriter.cpp:61-137 | a pass never grows an expression, and a reported change lowers its node count |
| ExprRewriting.SplitMeaning | miniob/src/observer/sql/optimizer/predicate_pushdown_rewriter.cpp:69-126 | through any nesting of ANDs a tuple passes the predicate exactly when it passes the residual and all pushed comparisons, and only field equalities are pushed |
| ExprRewriting.SplitTwice | miniob/src/observer/sql/optimizer/predicate_pushdown_rewriter.cpp:69-126 | one split takes everything pushable: splitting the residual moves nothing |
| ExprRewriting.SplitSize | miniob/src/observer/sql/optimizer/predicate_pushdown_rewriter.cpp:69-126 | residual and pushed parts hold no more nodes than the predicate; it is emptied only when it is itself pushed |
| LogicalPlans.PredicateRule | miniob/src/observer/sql/optimizer/predicate_rewrite.cpp:19-58 | removing a constant predicate strictly lowers the plan size, and anything else leaves it |
| LogicalPlans.PushdownRule | miniob/src/observer/sql/optimizer/predicate_pushdown_rewriter.cpp:20-67 | handing equalities down strictly lowers the plan size, and anything else does not raise it |
| LogicalPlans.RewriteOnce | miniob/src/observer/sql/optimizer/rewriter.cpp:28-64 | a whole round never raises the plan size and lowers it when it reports a change: the loop ends on every plan |
| FlatFilters.ScanFolded | miniob/src/observer/sql/optimizer/conjunction_simplification_rule.cpp:40-71 | on folded children the scan keeps those that need a tuple, or absorbs into the first child that is not constant true |
| FlatFilters.RewriteFlat | miniob/src/observer/sql/optimizer/expression_rewriter.cpp:61-137 | one pass over a flat AND keeps it flat and changes for no tuple whether the rewritten filter keeps it |
| FlatFilters.TwoPassesClean | miniob/src/observer/sql/optimizer/expression_rewriter.cpp:61-137 | after two passes no comparison of literals, no boolean constant in an AND and no one-child AND is left, though some edits are not reported |
| FlatFilters.CleanStays | miniob/src/observer/sql/optimizer/expression_rewriter.cpp:61-137 | a clean filter is a fixpoint of the pass, and no change is reported on it |
| FlatFilters.OutcomeExact | miniob/src/observer/sql/optimizer/conjunction_simplification_rule.cpp:49-58 | the rewritten filter differs from the AND on a tuple exactly when the AND has a false constant and the child put in its place keeps the tuple; the guard holds exactly when that child is the constant |
| RewriteTheorems.SettledMeans | miniob/src/observer/sql/optimizer/expression_rewriter.cpp:61-137 | where no constant is left, as in a clean filter, the rewritten filter keeps exactly the tuples the filter lets through |
| RewriteTheorems.SourceStays | miniob/src/observer/sql/optimizer/rewriter.cpp:28-64 | a join tree of scans is a fixpoint of all rules |
| RewriteTheorems.PushdownMeaning | miniob/src/observer/sql/optimizer/predicate_pushdown_rewriter.cpp:20-67 | filtering partly in the scan and partly above it keeps the rows; a list is handed only to a scan that holds none |
| RewriteTheorems.InstalledOnce | miniob/src/observer/sql/optimizer/predicate_pushdown_rewriter.cpp:62-65 | over the whole loop a scan is given predicates in at most one round, and in none if it holds some: `set_predicates` never loses a filter |
| RewriteTheorems.Round | miniob/src/observer/sql/optimizer/rewriter.cpp:28-64 | a round, all rules interleaved, keeps shape, tables and meaning of a planned operator, and reports nothing only in normal form |
| RewriteTheorems.LoopMeaning | miniob/src/observer/sql/optimizer/optimize_stage.cpp:174-188 | the loop ends in a plan over the same tables that denotes the meaning of the first; at exit no literal comparison, one-child AND or pushable equality over a scan is left |
| RewriteTheorems.RewriteExact | miniob/src/observer/sql/optimizer/optimize_stage.cpp:174-188 | the loop keeps what a planned filter denotes if and only if it has no false constant or no tuple passes the child that replaces it |
| RewriteTheorems.RewritePreserves | miniob/src/observer/sql/optimizer/optimize_stage.cpp:174-188 | when no comparison that needs a tuple precedes the first false constant, the denoted sequence is unchanged on every database |
| Optimizer.SimplifyConjunction | miniob/src/observer/sql/optimizer/conjunction_simplification_rule.cpp:28-82 | the erase-while-iterating loop computes the rule the theorems are about |
| Optimizer.SimplifyComparison | miniob/src/observer/sql/optimizer/comparison_simplification_rule.cpp:19-35 | the rule keeps the value of the expression on every tuple, errors included; it reports exactly on a comparison of two literals by a known operator, which it makes smaller, and touches nothing else |
| Optimizer.RewriteExpression | miniob/src/observer/sql/optimizer/expression_rewriter.cpp:61-137 | both rules with their flags, then the subexpressions only if none reported, compute `RewriteExpr` |
| Optimizer.RewriteExpressions | miniob/src/observer/sql/optimizer/expression_rewriter.cpp:26-59 | the two loops over expressions and children, with one flag reused and one accumulated, compute `ExpressionPass` |
| Optimizer.RemoveConstantPredicate | miniob/src/observer/sql/optimizer/predicate_rewrite.cpp:19-58 | swapping the grandchildren out and adding them one by one computes `PredicateRule` |
| Optimizer.GetExprsCanPushdown | miniob/src/observer/sql/optimizer/predicate_pushdown_rewriter.cpp:75-126 | the recursion that erases emptied children appends the pushed comparisons in order and leaves the residual of `SplitPushdown` |
| Optimizer.PushDownPredicates | miniob/src/observer/sql/optimizer/predicate_pushdown_rewriter.cpp:20-67 | guards, fake constant and `set_predicates` compute `PushdownRule` |
| Optimizer.Rewrite | miniob/src/observer/sql/optimizer/rewriter.cpp:28-64 | the rules in order, then the recursion over the children, compute `RewriteOnce` |
| Optimizer.RewriteToFixpoint | miniob/src/observer/sql/optimizer/optimize_stage.cpp:174-188 | the do/while on the flag terminates and computes `RewriteLoop` |
| Planner.CreatePredicatePlan | miniob/src/observer/sql/optimizer/optimize_stage.cpp:269-298 | one AND of all units in order, or no operator when there are none |
| Planner.CreateSelectPlan | miniob/src/observer/sql/optimizer/optimize_stage.cpp:224-267 | left-deep joins in FROM order under the predicate, if any, under the projection |
| Planner.FieldsAreOfTable | miniob/src/observer/sql/optimizer/optimize_stage.cpp:231-240 | a table operator is given exactly the query's fields of its table |
| Planner.TreeTuples | miniob/src/observer/sql/optimizer/optimize_stage.cpp:231-248 | the join tree denotes every combination of records once, the first table varying slowest |
| Planner.FindIsLookup | miniob/src/observer/sql/expr/tuple.h:284-292 | a column looked up in nested joined tuples is read from the first table of that name that has it, and is NOTFOUND otherwise |
| Planner.LookupRightTable | miniob/src/observer/sql/expr/tuple.h:109-125 | with distinct table names `table.column` is read from the record of that very table |
| Planner.FilterIsWhere | miniob/src/observer/sql/optimizer/optimize_stage.cpp:269-298 | the planned AND keeps the tuple of a combination exactly when the combination satisfies the WHERE clause |
| Planner.PlanAnswers | miniob/src/observer/sql/optimizer/optimize_stage.cpp:224-267 | the plan as built denotes the answer to the statement, row for row |
| Planner.RewrittenPlanAnswers | miniob/src/observer/sql/optimizer/optimize_stage.cpp:174-188 | under the guard on the WHERE clause the rewritten plan answers the statement on every database |
| Planner.RewrittenPlanExact | miniob/src/observer/sql/optimizer/conjunction_simplification_rule.cpp:49-58 | on a database the rewritten plan answers the statement if and only if the clause has no false literal comparison or no combination passes the comparison kept in its place |
| Planner.RewrittenRowsExact | miniob/src/observer/sql/optimizer/conjunction_simplification_rule.cpp:49-58 | the rewritten plan's rows are those asked for, as a multiset or in order, under one and the same condition, which the guard on the WHERE clause implies |
| Planner.RewriteCounterexample | miniob/src/observer/sql/optimizer/conjunction_simplification_rule.cpp:52-57 | `f = 1 AND 1 = 2` on one record: the answer is empty, the rewritten plan gives the record |
| Volcano.PhysicalOperator.Open | miniob/src/observer/sql/operator/join_physical_operator.cpp:20-35 | opening a closed operator of any kind, first time or again, makes it give its whole stream; where storage makes no scanner its code comes back and nothing is left open |
| Volcano.PhysicalOperator.Next | miniob/src/observer/sql/operator/join_physical_operator.cpp:37-65 | `next` gives the head of the stream and leaves its tail, or its end code; the operator can still be closed |
| Volcano.PhysicalOperator.TableScanNext | miniob/src/observer/sql/operator/table_scan_physical_operator.cpp:28-55 | the scan goes to the next record that passes every predicate, or ends, or stops at an error of a predicate or of reading |
| Volcano.PhysicalOperator.PassesFilter | miniob/src/observer/sql/operator/table_scan_physical_operator.cpp:78-97 | the predicates are tried in order and the first error or false one decides |
| Volcano.PhysicalOperator.IndexScanNext | miniob/src/observer/sql/operator/index_scan_physical_operator.cpp:60-84 | the scan goes through the index entries, fetches their records and rechecks every predicate, up to the first error of any of these |
| Volcano.PhysicalOperator.PredicateNext | miniob/src/observer/sql/operator/predicate_physical_operator.cpp:36-60 | the filter skips tuples until one passes, the child ends or an error stops it |
| Volcano.PhysicalOperator.JoinNext | miniob/src/observer/sql/operator/join_physical_operator.cpp:37-65 | the join gives the left-major product for any replayable right child, empty right rounds included as the code treats them |
| Volcano.PhysicalOperator.LeftNext | miniob/src/observer/sql/operator/join_physical_operator.cpp:90-101 | the left child advances by one and its tuple becomes the left half |
| Volcano.PhysicalOperator.RightNext | miniob/src/observer/sql/operator/join_physical_operator.cpp:103-135 | a done round is started over, else the round goes on; the right child is stepped in either |
| Volcano.PhysicalOperator.StartRound | miniob/src/observer/sql/operator/join_physical_operator.cpp:106-122 | the right child is closed if open, then opened to its whole stream: never opened while open; a failing open ends the join with its code |
| Volcano.PhysicalOperator.CurrentTuple | miniob/src/observer/sql/operator/project_physical_operator.cpp:51-55 | the tuple pointed at is the one the last `next` gave |
| Volcano.PhysicalOperator.Close | miniob/src/observer/sql/operator/project_physical_operator.cpp:44-50 | closing an open operator closes every operator below it and succeeds, since both scans' `close` do |
| Volcano.PhysicalOperator.JoinClose | miniob/src/observer/sql/operator/join_physical_operator.cpp:67-83 | a join closes both children, the right one only if it is open |
| Volcano.Drain | miniob/src/observer/sql/operator/project_physical_operator.cpp:20-55 | open, `next` until it fails, close: the rows and the code are the plan's stream, or none and the code of a failing open, and everything is closed again |
| Generator.Create | miniob/src/observer/sql/optimizer/physical_plan_generator.cpp:34-68 | the operators built form a tree of the lowered plan, all closed and on fresh memory; a join without two children is INTERNAL |
| Generator.CreateProject | miniob/src/observer/sql/optimizer/physical_plan_generator.cpp:158-188 | a projection is built with the specs of its fields, and without a child when the plan has none |
| Generator.CreateTableGet | miniob/src/observer/sql/optimizer/physical_plan_generator.cpp:70-133 | the loop that overwrites `index` and `value_expr` ends with an index and the key of one and the same predicate, or a table scan |
| EndToEnd.ChosenKey | miniob/src/observer/sql/optimizer/physical_plan_generator.cpp:76-114 | the chosen index is on the column of the first equality among the predicates that has one, and the key is that equality's literal |
| EndToEnd.IndexRefinesTableScan | miniob/src/observer/sql/operator/index_scan_physical_operator.cpp:60-84 | with an exact scanner an index scan gives the tuples of the table scan as a multiset, or a start of them and then an error of storage |
| EndToEnd.JoinGives | miniob/src/observer/sql/operator/join_physical_operator.cpp:37-135 | the join's stream over two finite streams is their left-major product |
| EndToEnd.JoinCuts | miniob/src/observer/sql/operator/join_physical_operator.cpp:37-135 | where a child's stream breaks off with the code of a failing access, so does the join's, after a start of what it would have given, or it is not affected at all |
| EndToEnd.SourceGives | miniob/src/observer/sql/optimizer/physical_plan_generator.cpp:235-259 | a lowered join tree gives what the logical tree denotes, in the same order without an index, up to a failure of storage |
| EndToEnd.LoweredPlanGives | miniob/src/observer/sql/optimizer/optimize_stage.cpp:115-148 | the rewritten plan of a resolved statement is lowered without error, and its stream gives its rows up to a failure of storage |
| EndToEnd.ExecuteSelect | miniob/src/observer/sql/optimizer/optimize_stage.cpp:115-148 | planning, rewriting, lowering and draining any resolved SELECT reaches the end unless an access to storage fails; at the end it has given the rows asked for if and only if the clause has no false literal comparison or no combination passes the comparison kept in its place, always so under the guard, and in left-major order if no index is used; short of the end it has given some of them, without an index the first ones, and the code of an access to storage that failed |
| Seda.StepKeepsInv | miniob/deps/common/seda/stage.cpp:130-237 | every atomic step of producers, workers and controllers keeps the counting invariant |
| Seda.RunKeepsInv | miniob/deps/common/seda/thread_pool.cpp:267-313 | the invariant holds after every run |
| Seda.AssertionsNeverFail | miniob/deps/common/seda/stage.cpp:88-146 | in every reachable state the assertions of `schedule`, `add_event`, `remove_event`, `connect` and `disconnect` hold, also for events queued while disconnected; a controller only has to keep to the order `set_pool`, `connect`, `disconnect` |
| Seda.ReferencesCounted | miniob/deps/common/seda/stage.cpp:156-174 | `event_ref_` is the number of schedules still to come, run-queue entries, popped stages and running handlers, and events leave a stage in the order they came |
| Seda.EventsInOrder | miniob/deps/common/seda/stage.cpp:156-174 | over every run the events given to a stage by `add_event` are those taken, in that order, and then those queued |
| Seda.TakenAreHandled | miniob/deps/common/seda/thread_pool.cpp:267-313 | over every run each event taken has been handled as often as it was taken, or is in a worker's hands |
| Seda.EveryEventIsHandled | miniob/deps/common/seda/thread_pool.cpp:267-313 | when no thread can go on, a connected stage has handled every event it was given, each once |
| Seda.FirstScheduledFirstServed | miniob/deps/common/seda/thread_pool.cpp:220-287 | over every run workers are given the stages in the order they were scheduled |
| Seda.DisconnectedIsReleased | miniob/deps/common/seda/stage.cpp:130-146 | once `disconnect` has passed its wait no thread and no run-queue entry refers to the stage |
| Seda.BlockedHasReason | miniob/deps/common/seda/stage.cpp:229-237 | an unsignalled waiting `disconnect` always has a thread or run-queue entry left to wait for |
| Seda.NoLostWakeup | miniob/deps/common/seda/thread_pool.cpp:220-236 | with at least one worker, a non-empty run queue always has a worker outside the unsignalled wait, though `schedule` skips the signal for its own threads |
| Seda.NobodySleepsOnWork | miniob/deps/common/seda/thread_pool.cpp:220-236 | in every reachable state nobody is in the unsignalled wait, or at least as many workers are outside it as the run queue has entries |
| Seda.OnlyEntryIsOwn | miniob/deps/common/seda/thread_pool.cpp:223-226 | a pool thread that queues the only entry wakes nobody |
| Seda.FinishAll | miniob/deps/common/seda/thread_pool.cpp:267-313 | from every state of a run the threads can finish what is begun: some sequence of their own steps leaves every worker waiting and every producer outside |
| Seda.EveryDisconnectIsReleased | miniob/deps/common/seda/stage.cpp:130-146 | without new events the threads' own steps, in any order, end within a bound that each lowers, and where no more can be taken the run queue is empty, no `disconnect` is left blocked, and one that was signalled lets the pool go as soon as it goes on |
| Seda.Stage.AddEvent | miniob/deps/common/seda/stage.cpp:156-174 | the locked section is the step `PushEvent`, and a schedule follows exactly when connected |
| Seda.Stage.RemoveEvent | miniob/deps/common/seda/stage.cpp:211-222 | the locked section takes the first event |
| Seda.Stage.ReleaseEvent | miniob/deps/common/seda/stage.cpp:229-237 | the locked section drops one reference, and signals exactly at the last one of a disconnected stage |
| Seda.Stage.Connect | miniob/deps/common/seda/stage.cpp:88-116 | after a successful `initialize` the locked section counts the backlog as references and connects; after a failed one nothing changes |
| Seda.Stage.DisconnectTurn | miniob/deps/common/seda/stage.cpp:130-146 | a turn of the waiting loop blocks while there are references, and else lets the pool go |
| Seda.Threadpool.Schedule | miniob/deps/common/seda/thread_pool.cpp:220-236 | the stage goes to the end of the run queue, and a signal is sent exactly when the machine says so |
| Seda.Threadpool.TakeOrWait | miniob/deps/common/seda/thread_pool.cpp:267-280 | the first stage is taken, or one more idle thread is counted |
| Timer.TimeLessIsEarlier | miniob/deps/common/seda/timer_stage.cpp:29-30 | times compare field by field as their microseconds do |
| Timer.TimeAfterIsLater | miniob/deps/common/seda/timer_stage.cpp:150-164 | a relative registration is that many microseconds from now, as a time |
| Timer.SubTime | miniob/deps/common/seda/timer_stage.cpp:32-42 | the difference of two times in microseconds, as a time |
| Timer.AddTime | miniob/deps/common/seda/timer_stage.cpp:44-54 | the sum of two times in microseconds, as a time |
| Timer.RealtimeToMonotonic | miniob/deps/common/seda/timer_stage.cpp:56-75 | the time is as far from now on the one clock as on the other |
| Timer.StepKeepsInv | miniob/deps/common/seda/timer_stage.cpp:358-508 | every step of the timer keeps its invariant |
| Timer.RunAccounts | miniob/deps/common/seda/timer_stage.cpp:358-508 | after any run each registered token is in exactly one of pending, fired, cancelled; `num_events_` is the pending count; the pending stand in order of microseconds and nonce; nothing fires twice or at fewer microseconds than its time |
| Timer.CallbackAsRegistered | miniob/deps/common/seda/timer_stage.cpp:358-475 | what is pending or has fired does so with the callback it was registered with |
| Timer.NewTokenIsUnique | miniob/deps/common/seda/timer_stage.cpp:358-372 | the assertion that a new token is unique never fails, whatever happens between the drawing of its nonce and its insertion; no token is made twice |
| Timer.CheckFiresDue | miniob/deps/common/seda/timer_stage.cpp:447-475 | a check fires all whose microseconds are not after now and nothing else, in order of time and nonce |
| Timer.CancelledNeverFires | miniob/deps/common/seda/timer_stage.cpp:390-412 | cancelling succeeds exactly on pending tokens, and what was cancelled fires in no continuation |
| Timer.SleepsToTheFirst | miniob/deps/common/seda/timer_stage.cpp:477-502 | after a check all that is pending is still to come, and the timer thread sleeps to the earliest of it, or without end if there is none |
| Timer.NeverOversleeps | miniob/deps/common/seda/timer_stage.cpp:375-385 | a timer thread that is owed no signal does not sleep past any pending time |
| Timer.NoMissedDeadline | miniob/deps/common/seda/timer_stage.cpp:375-385 | a timer thread asleep past the first deadline always has a signal coming |
| Timer.DueIsAllDue | miniob/deps/common/seda/timer_stage.cpp:447-456 | in the ordered queue the front run that is erased is everything due |
| Timer.TimerStage.InsertEntry | miniob/deps/common/seda/timer_stage.cpp:369 | the entry goes to its place in token order |
| Timer.TimerStage.MakeToken | miniob/deps/common/seda/timer_stage.cpp:76-102 | a token gets the next nonce, under a mutex of its own |
| Timer.TimerStage.RegisterTimer | miniob/deps/common/seda/timer_stage.cpp:365-379 | the locked section inserts a token made before and counts it, and a check is triggered exactly for a new first entry |
| Timer.TimerStage.CancelTimer | miniob/deps/common/seda/timer_stage.cpp:390-412 | the token's entry is erased and uncounted, with success exactly if it was pending |
| Timer.TimerStage.CheckTimerOnce | miniob/deps/common/seda/timer_stage.cpp:437-503 | one turn of the loop is the machine's check step |
| Md5.DecodeEncode | miniob/deps/common/math/md5.cpp:329-352 | decoding encoded words gives the words |
| Md5.EncodeDecode | miniob/deps/common/math/md5.cpp:329-352 | encoding decoded bytes gives the bytes |
| Md5.CountIsLength | miniob/deps/common/math/md5.cpp:177-180 | the two-word count with its carry is the bit length modulo 2^64 |
| Md5.IndexIsPosition | miniob/deps/common/math/md5.cpp:175 | the buffer position read off the low word is the length modulo 64 |
| Md5.FoldConcat | miniob/deps/common/math/md5.cpp:187-192 | folding a message is folding its block-aligned parts one after the other |
| Md5.Context.Update | miniob/deps/common/math/md5.cpp:170-200 | an update appends its input to the message the context stands for, and succeeds if and only if its loop does not wrap past the input |
| Md5.Context.FillAndTransform | miniob/deps/common/math/md5.cpp:187-194 | completing the buffered block and going through the input keeps the context standing for the message |
| Md5.Context.TransformBlocks | miniob/deps/common/math/md5.cpp:191-192 | the 32-bit loop ends at the last full block exactly when `Overruns` is false |
| Md5.Context.Final | miniob/deps/common/math/md5.cpp:206-230 | padding, the length words and the state give the digest of all that was fed in, and the context is zeroized |
| Md5.EndOfLoop | miniob/deps/common/math/md5.cpp:191 | the overrun condition is exactly that the index where the loop ends leaves 32 bits with 63 added |
| Md5.OverrunExample | miniob/deps/common/math/md5.cpp:191 | one buffered byte and 2^32 - 1 bytes overrun; inputs of up to 2^32 - 64 bytes never do |
| Md5.DigestChunks | miniob/deps/common/math/md5.cpp:154-230 | for any split of a message into chunks, init, updates and final give the digest of the whole, unless a chunk overruns |
| Md5.DigestBuffer | miniob/deps/common/math/md5.cpp:391-399 | one buffer of any 32-bit length gives its MD5 digest |
| Md5Vectors.Schedule | miniob/deps/common/math/md5.cpp:242-311 | each of the 64 lines has the round, the message word (i, 5i+1, 3i+5, 7i modulo 16) and the shift that section 3.4 of RFC 1321 gives its place |
| Md5Vectors.EveryWordOnce | miniob/deps/common/math/md5.cpp:242-311 | each round reads every word of the block once |
| Md5Vectors.RotateTurns | miniob/deps/common/math/md5.cpp:117-120 | on the sixteen shifts `ROTATE_LEFT` is the rotation of a 32-bit word |
| Md5Vectors.FirstChooses | miniob/deps/common/math/md5.cpp:112 | F takes `y` where `x` is set and `z` where it is not |
| Md5Vectors.SecondChooses | miniob/deps/common/math/md5.cpp:113 | G takes `x` where `z` is set and `y` where it is not |
| Md5Vectors.EmptyDigest | miniob/deps/common/math/md5.cpp:235-320 | the empty message has the digest d41d8cd98f00b204e9800998ecf8427e, through all 64 lines |
| Md5Vectors.AbcDigest | miniob/deps/common/math/md5.cpp:235-320 | "abc" has the digest 900150983cd24fb0d6963f7d28e17f72 |
| Calendar.KnownDays | miniob/deps/common/time/datetime.h:249-255 | 1 January 1970 is day 2440588, 1 January 2000 is day 2451545 |
| Calendar.MonthLength | miniob/deps/common/time/datetime.cpp:232-250 | the length the code gives a month is the Julian difference of the month starts |
| Calendar.NextDayIsNext | miniob/deps/common/time/datetime.h:249-255 | consecutive calendar days, leap rules included, have consecutive numbers |
| Calendar.DateAt | miniob/deps/common/time/datetime.h:249-255 | every number from 1 March -4800 on is the number of a valid date |
| Calendar.DateRoundTrip | miniob/deps/common/time/datetime.h:249-269 | a date comes back from its number if and only if it is from 1 March -4800 on |
| Calendar.NumberRoundTrip | miniob/deps/common/time/datetime.h:249-269 | a number comes back, through a valid date, if and only if it is from -32044 on |
| Calendar.NoDateBefore | miniob/deps/common/time/datetime.h:258-269 | before that `get_ymd` gives a day below 1 |
| Calendar.FitsInt | miniob/deps/common/time/datetime.h:258-269 | what `get_ymd` computes fits `int` exactly up to day 536838867 |
| Durations.ClockRoundTrip | miniob/deps/common/time/datetime.h:111-118 | clock fields of any sign come back from their milliseconds exactly when they have one sign and minutes, seconds and milliseconds are in range |
| Durations.TimeRoundTrip | miniob/deps/common/time/datetime.h:221-224 | milliseconds of either sign come back from their clock fields, which are a clock reading exactly for a time of day |
| Durations.LaterIsPlus | miniob/deps/common/time/datetime.h:249-255 | n days counted on one by one is n added to the number |
| Durations.ShiftedMonth | miniob/deps/common/time/datetime.cpp:175-180 | the truncating month arithmetic names, for every sum of months, the month of floor arithmetic; below 1 as one of 0 to -10 unless it is January |
| Durations.TrueStart | miniob/deps/common/time/datetime.h:249-255 | months 0 to -10 start where December to February of the year before do, and are taken to have 28 days |
| Durations.ClockKeepsSeconds | miniob/deps/common/time/datetime.cpp:182-195 | the carries from seconds to days lose no second, whatever the signs |
| Durations.ForwardClock | miniob/deps/common/time/datetime.cpp:182-195 | forward they give a clock reading and carry the whole days |
| Durations.ClockIsProper | miniob/deps/common/time/datetime.cpp:182-195 | for all signs the time is a time of day if and only if the days carried are the whole days of the seconds, rounded down; in the computed fields, if and only if the first that is not zero is positive or all are zero |
| Durations.BackwardClock | miniob/deps/common/time/datetime.cpp:182-195 | a family where it is not: minutes taken off across midnight |
| Durations.CarryUp | miniob/deps/common/time/datetime.cpp:216-225 | a step up a month keeps whether the loop will end on the target |
| Durations.CarryDown | miniob/deps/common/time/datetime.cpp:212-225 | so does a step down, also below January; a loop set out in month 1 or later never goes past the target |
| Durations.StepBelow | miniob/deps/common/time/datetime.cpp:223-225 | months 0 and below are taken 3 days short for December and never too long after |
| Durations.ShortDecember | miniob/deps/common/time/datetime.cpp:223-225 | a month taken off January leads to a month 0 of 28 days that stands for December |
| Durations.SetsOut | miniob/deps/common/time/datetime.cpp:175-209 | the closed condition on start, months and days says whether the loop, from the month and the clamped day the code starts on, will end on the shifted date plus the days |
| Durations.LateDaysFallShort | miniob/deps/common/time/datetime.cpp:199-209 | shifting below January to a month of more than 28 days, with no days added, reaches the shifted date if and only if the start is on the 28th or before |
| Durations.DateTime.AddSeconds | miniob/deps/common/time/datetime.h:187-202 | the total is exact over any sequence of calls; the time stays within 0:00 to 24:00, and ends at 24:00 if and only if the time plus the seconds less whole days is 24:00 |
| Durations.DateTime.AddDuration | miniob/deps/common/time/datetime.cpp:158-230 | it always ends and loses no second; with the shifted month in range the day is the shifted date plus the days if and only if `Reaches` holds, for durations of all signs; the time is a time of day if and only if the days carried are the whole days |
| Durations.DateTime.CarryDays | miniob/deps/common/time/datetime.cpp:211-227 | the carry loop ends, and ends on the target exactly when the closed condition on where it sets out says so |
| Durations.ForwardIsExact | miniob/deps/common/time/datetime.cpp:158-230 | a forward duration gives the clamped shifted date with the days counted on one by one (Appendix E of XML Schema Part 2) |
| Recency.RunRefines | miniob/deps/common/lang/lru_cache.h:100-132 | over every call sequence each key is held once, the entries are the plain map the calls describe, and they stand in order of last use |
| Recency.ApplyIsMap | miniob/deps/common/lang/lru_cache.h:100-132 | each call changes the map as a map call would, and keeps keys distinct |
| Recency.VisitsAreReverses | miniob/deps/common/lang/lru_cache.h:140-158 | full visits forwards and backwards are exact reverses |
| LruCache.Perform | miniob/deps/common/lang/lru_cache.h:71-158 | a new cache under any sequence of calls answers each as a plain map does and ends with the entries `Recency.Run` gives, which `RunRefines` is about |
| LruCache.LruCache.Get | miniob/deps/common/lang/lru_cache.h:100-110 | the value of the key, if any; its entry moves to the front and nothing else moves |
| LruCache.LruCache.Put | miniob/deps/common/lang/lru_cache.h:112-124 | the key gets the value and the front place, whether it was there or not |
| LruCache.LruCache.Remove | miniob/deps/common/lang/lru_cache.h:126-132 | the key's entry goes, the others keep their order |
| LruCache.LruCache.Touch | miniob/deps/common/lang/lru_cache.h:161-182 | a node at any place moves to the front, and the list stays linked both ways, indexed and ended |
| LruCache.LruCache.MoveToFront | miniob/deps/common/lang/lru_cache.h:168-181 | the relinking of a node that has one before it |
| LruCache.LruCache.Push | miniob/deps/common/lang/lru_cache.h:184-199 | a node with a new key becomes the front and is indexed |
| LruCache.LruCache.LruRemove | miniob/deps/common/lang/lru_cache.h:201-220 | the node is unlinked, unindexed and taken off either end |
| LruCache.LruCache.ForEach | miniob/deps/common/lang/lru_cache.h:140-148 | entries are visited latest used first, up to the first the visitor turns down |
| LruCache.LruCache.ForEachReverse | miniob/deps/common/lang/lru_cache.h:150-158 | the same from the other end |
| LruCache.LruCache.Destroy | miniob/deps/common/lang/lru_cache.h:84-93 | an emptied cache is a valid cache with no entries |
| LruCache.LruCache.Count | miniob/deps/common/lang/lru_cache.h:95-98 | the searcher's size is the number of entries |
| LruCache.MovedStaysIndexed | miniob/deps/common/lang/lru_cache.h:161-182 | moving a node to the front keeps the searcher's nodes exactly the list's nodes |
| LockTrace.InsertKeepsInverse | miniob/deps/common/lang/mutex.cpp:169-208 | recording a lock keeps the owner maps inverse if and only if no other thread is recorded for the mutex; `tryLock` always does |
| LockTrace.UnlockKeepsInverse | miniob/deps/common/lang/mutex.cpp:210-220 | so does recording an unlock |
| LockTrace.CheckKeepsInverse | miniob/deps/common/lang/mutex.cpp:126-155 | a check keeps them inverse if and only if it does not count past the limit on a mutex without an owner |
| LockTrace.RunKeepsInverse | miniob/deps/common/lang/mutex.cpp:157-220 | over a run in which a lock or unlock and its record are one step and only owners unlock, the maps stay inverse exactly as long as no check overflows, and so long record who holds each plain mutex |
| LockTrace.MacrosKeepInverse | miniob/deps/common/lang/mutex.h:156-224 | over every run of the separate steps of lock, unlock, wait and timed wait on plain mutexes the maps stay inverse exactly as long as no check overflows, no lock is recorded while another thread's release of the mutex is not, and no thread whose wait timed out records an unlock of what another is on record for |
| LockTrace.UntimedKeepInverse | miniob/deps/common/lang/mutex.h:156-211 | over runs in which no wait times out the first two are the exact condition: `COND_WAIT` adds no way to break the maps |
| LockTrace.RecordIsFree | miniob/deps/common/lang/mutex.h:156-224 | until then a record meets another owner if and only if another thread is on record by the macros; if the recording thread holds the mutex, if and only if that other has released it and not recorded that |
| LockTrace.OverflowIsReached | miniob/deps/common/lang/mutex.cpp:137-151 | one thread more than the limit checking a free mutex records an owner nobody is |
| LockTrace.LateUnlockExample | miniob/deps/common/lang/mutex.h:177-186 | a run of two lockers and one unlock: a lock recorded between a release and its record leaves a mutex owned in one map and free in the other |
| LockTrace.TimeoutExample | miniob/deps/common/lang/mutex.h:213-224 | a run in which every lock and check goes, and the unlock of a thread whose wait timed out takes another's entry out of one map only |
| LockTrace.PlaceIsOfFirstLock | miniob/deps/common/lang/mutex.cpp:169-188 | over runs without overflow the thread, file and line on record are those of the last lock that found the mutex without an owner, with no unlock of it since |
| LockTrace.RunCountsWaiters | miniob/deps/common/lang/mutex.cpp:92-188 | over every run the trace has each thread waiting for what it checked last and has not locked since; when checks and locks alternate as in `MUTEX_LOCK`, `mWaitTimes` is the number of waiters |
| LockTrace.DeadlockIsRing | miniob/deps/common/lang/mutex.cpp:64-124 | on the caller's own mutex a deadlock is reported exactly when it is not recursive; on any other if and only if the caller's wait closes a ring of waiting threads with fewer than `mMaxBlockTids` others, all different |
| LockTrace.ReportedRingIsReal | miniob/deps/common/lang/mutex.cpp:64-124 | over runs of plain mutexes without overflow the ring reported is one of threads waiting for mutexes really held by the next, and every such ring within the bound is reported |
| LockTrace.WalkLeads | miniob/deps/common/lang/mutex.cpp:64-90 | a walk that reports true is a path of different threads to the caller within the bound |
| LockTrace.WalkFollows | miniob/deps/common/lang/mutex.cpp:64-90 | every path within the bound is found by the walk |
| LockTrace.LockTrace.DeadlockCheck | miniob/deps/common/lang/mutex.cpp:92-124 | the wait is recorded, and the early returns and the walk decide `DeadlockFound` |
| LockTrace.LockTrace.CheckLockTimes | miniob/deps/common/lang/mutex.cpp:126-155 | the count goes up, reported from the limit on, with the owner it may invent |
| LockTrace.LockTrace.Check | miniob/deps/common/lang/mutex.cpp:157-167 | a check is the step `CheckStep` |
| LockTrace.LockTrace.InsertLock | miniob/deps/common/lang/mutex.cpp:169-188 | the four maps after a lock: an owner on record stays |
| LockTrace.LockTrace.TryLock | miniob/deps/common/lang/mutex.cpp:198-208 | nothing is recorded when someone is on record |
| LockTrace.LockTrace.Unlock | miniob/deps/common/lang/mutex.cpp:210-220 | the mutex leaves both owner maps |

## Left out

- Expressions.CompareCells: `TupleCell::compare` is a parameter here; `TupleCells.Compare` is the source's, with reals for `float` and a wrapped difference for `int`, and `Comparisons` puts it in.
- EndToEnd.ExecuteSelect: storage is a list of records per table that a scanner replays, and an index scanner is assumed to yield each matching record once; a failing access to storage has a code other than RECORD_EOF; the B+ tree, record manager and transactions are not modelled.
- Generator.Create: plans for DELETE and EXPLAIN are rewritten but not lowered; deleting runs while scanning and depends on the scanner.
- Volcano.PhysicalOperator.JoinNext: an empty right child ends the join at its first round, as the code does; over a replayable right child this is the empty product.
- Volcano.PhysicalOperator.CurrentTuple: the tuples of joins and projections are read through the children's cursors, which stands for the pointers of `JoinedTuple` and `ProjectTuple`.
- Planner.CreateSelectPlan: a statement without tables is not planned; the parser gives none.
- One class with a tag stands for the operator classes, which differ by virtual dispatch.
- Expression and plan trees are values: `unique_ptr` moves and the deletion of replaced nodes are not modelled.
- `JoinedTuple::cell_at` and `RowTuple::set_schema`: cells are read by `find_cell`; schemas appended again on reopening repeat the same columns and change no lookup.
- OR is covered by evaluation, rewriting sizes and pushdown, not by the meaning theorems; no statement makes one.
- Seda.AssertionsNeverFail: one pool serves all stages; killing threads and `connect` during a waiting `disconnect` are not modelled. The assertion of `run_thread` that its queue is not empty follows its own loop.
- Seda.NoLostWakeup: says some worker is awake, not when it runs; that threads which can step do step is left to the scheduler.
- Timer.NewTokenIsUnique: the 64-bit nonce does not wrap.
- Timer.CheckFiresDue: the clock is any sequence of times; callbacks only count as fired.
- Md5.Transform: the additive constants are pinned by the two test vectors, which pass through every line, not by the sines they come from.
- Md5.DigestBuffer: `MD5File` is not modelled; `MD5String` is the same call with the string's length.
- Calendar.NumberRoundTrip: years and days are unbounded; `Calendar.FitsInt` bounds what fits `int`.
- Durations.AddsDate: says nothing of a duration whose shifted month is before 1 March -4800, nor of going back from that year; it is only shown to end.
- Durations.DateTime.AddDuration: the duration comes parsed; `parse_duration` is not modelled.
- LruCache.LruCache.Remove: the node is dropped from list and searcher; freeing its memory is not modelled. Hashing is a map by key.
- LockTrace.MacrosKeepInverse: the pthread calls succeed, but for a timed wait that times out; plain mutexes; a recursive mutex is recorded once for all its holds and forgotten at the first release (`LockTrace.RunKeepsInverse` covers it).
- LockTrace.RunCountsWaiters: the count of waiters is not kept by `MUTEX_TRYLOCK`, which checks and then may not lock.
- LockTrace.LockTrace.Check: runs under a read lock although it writes; overlapping checks are not modelled.
- LockTrace.DeadlockIsRing: the report itself is a log line and is not modelled.
- Sockets, sessions, parsing, logging, signals, memory pools, bitmaps and the other helpers of `deps/common` are not modelled: plumbing or easy members.
