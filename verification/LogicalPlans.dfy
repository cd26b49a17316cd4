/** Logical operator trees, what they denote, and the plan-level rewrite rules. */
module LogicalPlans {

  import opened Expressions
  import opened ExprRewriting

  datatype OperKind =
    | TableGet(table: Table, fields: seq<Field>, predicates: seq<Expr>)
    | Predicate
    | Projection(outputs: seq<Field>)
    | Join
    | Delete(target: Table)
    | Explain

  datatype LogicalOper = LogicalOper(kind: OperKind, expressions: seq<Expr>, children: seq<LogicalOper>)

  // ---------- meaning ----------

  function ScanTable(env: Env, table: Table, rows: seq<Record>, predicates: seq<Expr>): seq<Tuple> {
    if rows == [] then [] else
    var t := RowTuple(table, rows[0]);
    (if AllHold(env, predicates, t) then [t] else []) + ScanTable(env, table, rows[1..], predicates)
  }

  function Filter(env: Env, e: Expr, ts: seq<Tuple>): seq<Tuple> {
    if ts == [] then [] else
    (if Holds(env, e, ts[0]) then [ts[0]] else []) + Filter(env, e, ts[1..])
  }

  function Pair(l: Tuple, rs: seq<Tuple>): seq<Tuple> {
    if rs == [] then [] else [JoinedTuple(l, rs[0])] + Pair(l, rs[1..])
  }

  /** Left-major product. */
  function Product(ls: seq<Tuple>, rs: seq<Tuple>): seq<Tuple> {
    if ls == [] then [] else Pair(ls[0], rs) + Product(ls[1..], rs)
  }

  function Specs(fields: seq<Field>): seq<CellSpec> {
    seq(|fields|, i requires 0 <= i < |fields| => CellSpec(fields[i].table, fields[i].name))
  }

  function Project(specs: seq<CellSpec>, ts: seq<Tuple>): (r: seq<Tuple>)
    ensures |r| == |ts|
  {
    seq(|ts|, i requires 0 <= i < |ts| => ProjectTuple(specs, ts[i]))
  }

  /** The tuples a plan produces, in order. A delete passes on the tuples it is to delete, an
      explain those of the plan it describes. */
  function Denote(env: Env, o: LogicalOper): seq<Tuple>
    decreases o
  {
    match o.kind
    case TableGet(table, _, predicates) => ScanTable(env, table, table.rows, predicates)
    case Predicate =>
      if |o.children| == 1 && |o.expressions| == 1 then
        Filter(env, o.expressions[0], Denote(env, o.children[0]))
      else []
    case Projection(outputs) =>
      if o.children == [] then [] else Project(Specs(outputs), Denote(env, o.children[0]))
    case Join =>
      if |o.children| == 2 then Product(Denote(env, o.children[0]), Denote(env, o.children[1])) else []
    case Delete(_) => if o.children == [] then [] else Denote(env, o.children[0])
    case Explain => if o.children == [] then [] else Denote(env, o.children[0])
  }

  // ---------- sizes ----------

  /** Operators plus nodes of the expressions they hold. Predicates already handed to a table
      operator are not counted. */
  function OperSize(o: LogicalOper): (n: nat)
    ensures n >= 1
    decreases o, 0
  {
    1 + SizeAll(o.expressions) + OperSizeAll(o.children)
  }

  function OperSizeAll(os: seq<LogicalOper>): nat
    decreases os, 1
  {
    if os == [] then 0 else OperSize(os[0]) + OperSizeAll(os[1..])
  }

  lemma OperSizeOne(o: LogicalOper)
    ensures OperSizeAll([o]) == OperSize(o)
  {
    assert [o][1..] == [];
  }

  lemma SizeOne(e: Expr)
    ensures SizeAll([e]) == Size(e)
  {
    assert [e][1..] == [];
  }

  // ---------- the three rules ----------

  /** `ExpressionRewriter::rewrite`: one pass over every expression of the whole subtree. */
  function ExpressionPass(env: Env, o: LogicalOper): (r: (LogicalOper, bool))
    ensures OperSize(r.0) <= OperSize(o)
    ensures r.1 ==> OperSize(r.0) < OperSize(o)
    decreases o, 0
  {
    var (es, c) := RewriteExprs(env, o.expressions);
    var (os, cs) := ExpressionPassAll(env, o.children);
    (LogicalOper(o.kind, es, os), c || cs)
  }

  function ExpressionPassAll(env: Env, os: seq<LogicalOper>): (r: (seq<LogicalOper>, bool))
    ensures |r.0| == |os|
    ensures OperSizeAll(r.0) <= OperSizeAll(os)
    ensures r.1 ==> OperSizeAll(r.0) < OperSizeAll(os)
    decreases os, 1
  {
    if os == [] then ([], false) else
    var (o', c) := ExpressionPass(env, os[0]);
    var (rest, cs) := ExpressionPassAll(env, os[1..]);
    ([o'] + rest, c || cs)
  }

  /** `PredicateRewriteRule::rewrite`: drop an only child that is a constant predicate. */
  function PredicateRule(env: Env, o: LogicalOper): (r: (LogicalOper, bool))
    ensures OperSize(r.0) <= OperSize(o)
    ensures r.1 ==> OperSize(r.0) < OperSize(o)
  {
    if |o.children| != 1 then (o, false) else
    var child := o.children[0];
    if !child.kind.Predicate? || |child.expressions| != 1 || !child.expressions[0].ValueExpr? then (o, false) else
    assert o.children == [child];
    OperSizeOne(child);
    if GetBoolean(env, child.expressions[0].cell) then (o.(children := child.children), true)
    else (o.(children := []), true)
  }

  /** `PredicatePushdownRewriter::rewrite`: hand pushable equalities of a predicate to the table
      operator right below it. */
  function PushdownRule(o: LogicalOper): (r: (LogicalOper, bool))
    ensures OperSize(r.0) <= OperSize(o)
    ensures r.1 ==> OperSize(r.0) < OperSize(o)
  {
    if !o.kind.Predicate? || |o.children| != 1 || !o.children[0].kind.TableGet? || |o.expressions| != 1 then (o, false)
    else
      var table := o.children[0];
      var (rest, pushed) := SplitPushdown(o.expressions[0]);
      SplitSize(o.expressions[0]);
      var e := if rest.Some? then rest.value else ValueExpr(Booleans(true));
      assert o.expressions == [o.expressions[0]] && o.children == [table];
      SizeOne(o.expressions[0]);
      SizeOne(e);
      if pushed == [] then (o.(expressions := [e]), false)
      else
        var table' := table.(kind := table.kind.(predicates := pushed));
        OperSizeOne(table);
        OperSizeOne(table');
        assert SizeAll(pushed) >= Size(pushed[0]);
        (LogicalOper(o.kind, [e], [table']), true)
  }

  function RulesAt(env: Env, o: LogicalOper): (r: (LogicalOper, bool))
    ensures OperSize(r.0) <= OperSize(o)
    ensures r.1 ==> OperSize(r.0) < OperSize(o)
  {
    var (o1, c1) := ExpressionPass(env, o);
    var (o2, c2) := PredicateRule(env, o1);
    var (o3, c3) := PushdownRule(o2);
    (o3, c1 || c2 || c3)
  }

  /** `Rewriter::rewrite`: the three rules here, then the whole of it again at each child. */
  function RewriteOnce(env: Env, o: LogicalOper): (r: (LogicalOper, bool))
    ensures OperSize(r.0) <= OperSize(o)
    ensures r.1 ==> OperSize(r.0) < OperSize(o)
    decreases OperSize(o), 0
  {
    var (o1, c) := RulesAt(env, o);
    var (os, cs) := RewriteOnceAll(env, o1.children);
    (o1.(children := os), c || cs)
  }

  function RewriteOnceAll(env: Env, os: seq<LogicalOper>): (r: (seq<LogicalOper>, bool))
    ensures |r.0| == |os|
    ensures OperSizeAll(r.0) <= OperSizeAll(os)
    ensures r.1 ==> OperSizeAll(r.0) < OperSizeAll(os)
    decreases OperSizeAll(os), 1
  {
    if os == [] then ([], false) else
    var (o', c) := RewriteOnce(env, os[0]);
    var (rest, cs) := RewriteOnceAll(env, os[1..]);
    ([o'] + rest, c || cs)
  }

  /** `OptimizeStage::rewrite`: rounds until one reports no change. It ends on every plan,
      because a reporting round strictly lowers `OperSize`. */
  function RewriteLoop(env: Env, o: LogicalOper): LogicalOper
    decreases OperSize(o)
  {
    var (o', changed) := RewriteOnce(env, o);
    if changed then RewriteLoop(env, o') else o'
  }
}
