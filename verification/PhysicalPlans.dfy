/** Physical plans, the stream of tuples each produces, and the lowering of logical plans. */
module PhysicalPlans {

  import opened Wrappers
  import opened Expressions
  import opened LogicalPlans

  datatype Body =
    | TableScan(table: Table, predicates: seq<Expr>)
    | IndexScan(indexed: Table, column: string, key: Cell, filters: seq<Expr>)
    | PredicateFilter(expr: Expr)
    | ProjectTuples(specs: seq<CellSpec>)
    | NestedLoopJoin

  datatype PhysPlan = PhysPlan(body: Body, children: seq<PhysPlan>)

  predicate WellBuilt(p: PhysPlan)
    decreases p
  {
    && (forall i :: 0 <= i < |p.children| ==> WellBuilt(p.children[i]))
    && match p.body
       case TableScan(_, _) => |p.children| == 0
       case IndexScan(_, _, _, _) => |p.children| == 0
       case PredicateFilter(_) => |p.children| == 1
       case ProjectTuples(_) => |p.children| <= 1
       case NestedLoopJoin => |p.children| == 2
  }

  // ---------- streams ----------

  /** What repeated `next` calls give: some tuples, then a code that is not SUCCESS. */
  datatype Stream = Stream(items: seq<Tuple>, end: RC)

  function Prepend(ts: seq<Tuple>, s: Stream): Stream {
    Stream(ts + s.items, s.end)
  }

  /** `filter` of a scan: the first error or false predicate decides. */
  function Check(env: Env, predicates: seq<Expr>, t: Tuple): (r: Result<bool>)
    ensures r.Err? ==> r.rc != SUCCESS && r.rc != RECORD_EOF
  {
    if predicates == [] then Ok(true) else
    match Eval(env, predicates[0], t)
    case Err(rc) => Err(rc)
    case Ok(c) => if GetBoolean(env, c) then Check(env, predicates[1..], t) else Ok(false)
  }

  function RecordStream(env: Env, table: Table, rows: seq<Record>, predicates: seq<Expr>): (s: Stream)
    ensures s.end != SUCCESS
  {
    if rows == [] then Stream([], RECORD_EOF) else
    if env.storage(ReadRecord(table, |rows|)) != SUCCESS then Stream([], env.storage(ReadRecord(table, |rows|))) else
    var t := RowTuple(table, rows[0]);
    match Check(env, predicates, t)
    case Err(rc) => Stream([], rc)
    case Ok(b) => Prepend(if b then [t] else [], RecordStream(env, table, rows[1..], predicates))
  }

  /** The records an index scanner leads to; a position outside the table cannot be fetched. */
  function EntryStream(env: Env, table: Table, column: string, key: Cell, rids: seq<nat>, predicates: seq<Expr>): (s: Stream)
    ensures s.end != SUCCESS
    decreases |rids|
  {
    var read := env.storage(ReadEntry(table, column, key, |rids|));
    if read != SUCCESS then Stream([], read) else
    if rids == [] then Stream([], RECORD_EOF) else
    if rids[0] >= |table.rows| then Stream([], INVALID_ARGUMENT) else
    var fetched := env.storage(FetchRecord(table, rids[0]));
    if fetched != SUCCESS then Stream([], fetched) else
    var t := RowTuple(table, table.rows[rids[0]]);
    match Check(env, predicates, t)
    case Err(rc) => Stream([], rc)
    case Ok(b) => Prepend(if b then [t] else [], EntryStream(env, table, column, key, rids[1..], predicates))
  }

  function FilterStream(env: Env, e: Expr, s: Stream): (r: Stream)
    requires s.end != SUCCESS
    ensures r.end != SUCCESS
    decreases |s.items|
  {
    if s.items == [] then s else
    match Eval(env, e, s.items[0])
    case Err(rc) => Stream([], rc)
    case Ok(c) => Prepend(if GetBoolean(env, c) then [s.items[0]] else [],
                          FilterStream(env, e, Stream(s.items[1..], s.end)))
  }

  /** The filter on a stream, after its first tuple is taken. */
  lemma FilterStep(env: Env, e: Expr, s: Stream, t: Tuple, rest: Stream)
    requires s.end != SUCCESS && s.items != [] && t == s.items[0] && rest == Stream(s.items[1..], s.end)
    ensures var c := Eval(env, e, t);
            FilterStream(env, e, s) ==
            if c.Err? then Stream([], c.rc)
            else if GetBoolean(env, c.value) then Prepend([t], FilterStream(env, e, rest))
            else FilterStream(env, e, rest)
  {
  }

  function ProjectStream(specs: seq<CellSpec>, s: Stream): Stream {
    Stream(Project(specs, s.items), s.end)
  }

  /** Rows still to come from a join that has not started a round: `ls` are the left tuples to
      come, `full` is what the right child gives each time it is opened. */
  function JoinStream(ls: Stream, full: Stream): (s: Stream)
    requires ls.end != SUCCESS && full.end != SUCCESS
    ensures s.end != SUCCESS
    decreases |ls.items|, 0
  {
    if ls.items == [] then Stream([], ls.end)
    else if full.items == [] then Stream([], full.end)
    else RoundStream(ls.items[0], full, Stream(ls.items[1..], ls.end), full)
  }

  /** Rows still to come in the middle of a round for left tuple `l`. */
  function RoundStream(l: Tuple, rs: Stream, ls: Stream, full: Stream): (s: Stream)
    requires rs.end != SUCCESS && ls.end != SUCCESS && full.end != SUCCESS
    ensures s.end != SUCCESS
    decreases |ls.items|, 1
  {
    if rs.end != RECORD_EOF then Stream(Pair(l, rs.items), rs.end)
    else Prepend(Pair(l, rs.items), JoinStream(ls, full))
  }

  /** Taking the right child's next tuple advances the round. */
  lemma RoundStep(l: Tuple, rs: Stream, ls: Stream, full: Stream)
    requires rs.end != SUCCESS && ls.end != SUCCESS && full.end != SUCCESS && rs.items != []
    ensures var s := RoundStream(l, rs, ls, full);
            && s.items != [] && s.items[0] == JoinedTuple(l, rs.items[0])
            && Stream(s.items[1..], s.end) == RoundStream(l, Stream(rs.items[1..], rs.end), ls, full)
  {
    assert Pair(l, rs.items) == [JoinedTuple(l, rs.items[0])] + Pair(l, rs.items[1..]);
    var s := RoundStream(l, rs, ls, full);
    if rs.end == RECORD_EOF {
      assert s.items == [JoinedTuple(l, rs.items[0])] + (Pair(l, rs.items[1..]) + JoinStream(ls, full).items);
    }
  }

  /** A finished round leaves the rounds of the left tuples to come. */
  lemma RoundEnd(l: Tuple, ls: Stream, full: Stream)
    requires ls.end != SUCCESS && full.end != SUCCESS
    ensures RoundStream(l, Stream([], RECORD_EOF), ls, full) == JoinStream(ls, full)
  {
  }

  /** The code of `open`: a join opens its left child only. */
  function OpenCode(env: Env, p: PhysPlan): RC
    requires WellBuilt(p)
    decreases p
  {
    match p.body
    case TableScan(table, _) => env.storage(OpenTable(table))
    case IndexScan(table, column, key, _) =>
      if env.storage(OpenIndex(table, column, key)) == SUCCESS then SUCCESS else INTERNAL
    case PredicateFilter(_) => OpenCode(env, p.children[0])
    case ProjectTuples(_) => if p.children == [] then SUCCESS else OpenCode(env, p.children[0])
    case NestedLoopJoin => OpenCode(env, p.children[0])
  }

  /** What comes of opening a plan and taking all it gives. */
  function Opened(env: Env, p: PhysPlan): (s: Stream)
    requires WellBuilt(p)
    ensures s.end != SUCCESS
    decreases p, 1
  {
    if OpenCode(env, p) == SUCCESS then StreamOf(env, p) else Stream([], OpenCode(env, p))
  }

  /** The stream of a plan that has been opened; a join opens its right child for every round. */
  function StreamOf(env: Env, p: PhysPlan): (s: Stream)
    requires WellBuilt(p)
    ensures s.end != SUCCESS
    decreases p, 0
  {
    match p.body
    case TableScan(table, predicates) => RecordStream(env, table, table.rows, predicates)
    case IndexScan(table, column, key, predicates) =>
      EntryStream(env, table, column, key, env.indexScan(table, column, key), predicates)
    case PredicateFilter(e) => FilterStream(env, e, StreamOf(env, p.children[0]))
    case ProjectTuples(specs) =>
      if p.children == [] then Stream([], RECORD_EOF) else ProjectStream(specs, StreamOf(env, p.children[0]))
    case NestedLoopJoin => JoinStream(StreamOf(env, p.children[0]), Opened(env, p.children[1]))
  }

  // ---------- lowering ----------

  /** The column and key of an equality between a column and a literal. */
  function IndexKey(e: Expr): Option<(string, Cell)> {
    if !e.ComparisonExpr? || e.comp != EQUAL_TO then None
    else if e.left.FieldExpr? && e.right.ValueExpr? then Some((e.left.field.name, e.right.cell))
    else if e.right.FieldExpr? && e.left.ValueExpr? then Some((e.right.field.name, e.left.cell))
    else None
  }

  /** The first predicate that is such an equality on an indexed column. */
  function ChooseIndex(table: Table, predicates: seq<Expr>): Option<(string, Cell)> {
    if predicates == [] then None else
    match IndexKey(predicates[0])
    case Some(k) => if k.0 in table.indexed then Some(k) else ChooseIndex(table, predicates[1..])
    case None => ChooseIndex(table, predicates[1..])
  }

  function LowerTable(table: Table, predicates: seq<Expr>): Body {
    match ChooseIndex(table, predicates)
    case Some(k) => IndexScan(table, k.0, k.1, predicates)
    case None => TableScan(table, predicates)
  }

  /** What the assertions of the generator demand. Deletes and explains are not lowered here. */
  predicate IsLowerable(o: LogicalOper)
    decreases o
  {
    && (forall i :: 0 <= i < |o.children| ==> IsLowerable(o.children[i]))
    && match o.kind
       case TableGet(_, _, _) => true
       case Predicate => |o.children| == 1 && |o.expressions| == 1 && ValueType(o.expressions[0]) == BOOLEANS
       case Projection(_) => true
       case Join => true
       case _ => false
  }

  /** `PhysicalPlanGenerator::create`. Only a join without exactly two children is an error. */
  function Lower(o: LogicalOper): (r: Result<PhysPlan>)
    requires IsLowerable(o)
    ensures r.Ok? ==> WellBuilt(r.value)
    ensures r.Err? ==> r.rc != SUCCESS
    decreases o
  {
    match o.kind
    case TableGet(table, _, predicates) => Ok(PhysPlan(LowerTable(table, predicates), []))
    case Predicate =>
      (match Lower(o.children[0])
       case Err(rc) => Err(rc)
       case Ok(child) => Ok(PhysPlan(PredicateFilter(o.expressions[0]), [child])))
    case Projection(outputs) =>
      if o.children == [] then Ok(PhysPlan(ProjectTuples(Specs(outputs)), []))
      else
        (match Lower(o.children[0])
         case Err(rc) => Err(rc)
         case Ok(child) => Ok(PhysPlan(ProjectTuples(Specs(outputs)), [child])))
    case Join =>
      if |o.children| != 2 then Err(INTERNAL) else
      (match Lower(o.children[0])
       case Err(rc) => Err(rc)
       case Ok(left) =>
         match Lower(o.children[1])
         case Err(rc) => Err(rc)
         case Ok(right) => Ok(PhysPlan(NestedLoopJoin, [left, right])))
    case Delete(_) => Err(INVALID_ARGUMENT)
    case Explain => Err(INVALID_ARGUMENT)
  }
}
