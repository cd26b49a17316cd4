/** The physical plan generator: builds operators from a logical plan. */
module Generator {

  import opened Wrappers
  import opened Expressions
  import opened LogicalPlans
  import opened PhysicalPlans
  import opened Volcano

  /** `PhysicalPlanGenerator::create`, dispatching on the operator type. */
  method Create(o: LogicalOper) returns (rc: RC, oper: PhysicalOperator?)
    requires IsLowerable(o)
    ensures match Lower(o)
            case Ok(p) => rc == SUCCESS && oper != null && oper.plan == p && oper.Tree() && oper.AllClosed() && fresh(oper.repr)
            case Err(e) => rc == e && oper == null
    decreases o, 1
  {
    match o.kind {
      case TableGet(table, _, predicates) =>
        oper := CreateTableGet(table, predicates);
        rc := SUCCESS;
      case Predicate =>
        var child;
        rc, child := Create(o.children[0]);
        if rc != SUCCESS { return rc, null; }
        var body := PredicateFilter(o.expressions[0]);
        oper := new PhysicalOperator(body, [child], PhysPlan(body, [child.plan]));
      case Projection(outputs) =>
        rc, oper := CreateProject(o, outputs);
      case Join =>
        if |o.children| != 2 { return INTERNAL, null; }
        var left, right;
        rc, left := Create(o.children[0]);
        if rc != SUCCESS { return rc, null; }
        rc, right := Create(o.children[1]);
        if rc != SUCCESS { return rc, null; }
        oper := new PhysicalOperator(NestedLoopJoin, [left, right], PhysPlan(NestedLoopJoin, [left.plan, right.plan]));
    }
  }

  method CreateProject(o: LogicalOper, outputs: seq<Field>) returns (rc: RC, oper: PhysicalOperator?)
    requires IsLowerable(o) && o.kind == Projection(outputs)
    ensures match Lower(o)
            case Ok(p) => rc == SUCCESS && oper != null && oper.plan == p && oper.Tree() && oper.AllClosed() && fresh(oper.repr)
            case Err(e) => rc == e && oper == null
    decreases o, 0
  {
    var children: seq<PhysicalOperator> := [];
    ghost var plans := [];
    if o.children != [] {
      var child;
      rc, child := Create(o.children[0]);
      if rc != SUCCESS { return rc, null; }
      children := [child];
      plans := [child.plan];
    }
    var specs := [];
    for i := 0 to |outputs|
      invariant specs == Specs(outputs[..i])
    {
      assert Specs(outputs[..i + 1]) == Specs(outputs[..i]) + [CellSpec(outputs[i].table, outputs[i].name)];
      specs := specs + [CellSpec(outputs[i].table, outputs[i].name)];
    }
    assert outputs[..|outputs|] == outputs;
    oper := new PhysicalOperator(ProjectTuples(specs), children, PhysPlan(ProjectTuples(specs), plans));
    rc := SUCCESS;
  }

  /** The search for an index: `index` and `valueExpr` are overwritten on the way, and in the end
      both come from the same predicate. */
  method CreateTableGet(table: Table, predicates: seq<Expr>) returns (oper: PhysicalOperator)
    ensures oper.plan == PhysPlan(LowerTable(table, predicates), [])
    ensures oper.Tree() && oper.AllClosed() && fresh(oper.repr)
  {
    var index: Option<string> := None;
    var valueExpr: Option<Expr> := None;
    var i := 0;
    while i < |predicates| && index.None?
      invariant i <= |predicates|
      invariant index.None? ==> ChooseIndex(table, predicates[i..]) == ChooseIndex(table, predicates)
      invariant index.Some? ==> valueExpr.Some? && valueExpr.value.ValueExpr?
                                && ChooseIndex(table, predicates) == Some((index.value, valueExpr.value.cell))
      decreases |predicates| - i, index.None?
    {
      var expr := predicates[i];
      assert predicates[i..][1..] == predicates[i + 1..];
      i := i + 1;
      if !expr.ComparisonExpr? || expr.comp != EQUAL_TO { continue; }
      if !expr.left.ValueExpr? && !expr.right.ValueExpr? { continue; }
      var fieldExpr: Option<Expr> := None;
      if expr.left.FieldExpr? {
        assert expr.right.ValueExpr?;  // the generator's own assertion
        fieldExpr, valueExpr := Some(expr.left), Some(expr.right);
      } else if expr.right.FieldExpr? {
        assert expr.left.ValueExpr?;  // the generator's own assertion
        fieldExpr, valueExpr := Some(expr.right), Some(expr.left);
      }
      if fieldExpr.None? { continue; }
      if fieldExpr.value.field.name in table.indexed {
        index := Some(fieldExpr.value.field.name);
      }
    }
    var body;
    if index.Some? {
      body := IndexScan(table, index.value, valueExpr.value.cell, predicates);
    } else {
      assert i == |predicates| && predicates[i..] == [];
      body := TableScan(table, predicates);
    }
    oper := new PhysicalOperator(body, [], PhysPlan(body, []));
  }
}
