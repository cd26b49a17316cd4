/** The optimizer as the source runs it: loops that edit child lists in place and flags that
    collect `change_made`. Each method returns the edited tree together with its flag and is
    proved equal to the rule it implements. */
module Optimizer {

  import opened Wrappers
  import opened Expressions
  import opened ExprRewriting
  import opened LogicalPlans

  /** `ConjunctionSimplificationRule::rewrite` */
  method SimplifyConjunction(expr: Expr) returns (result: Expr, changeMade: bool)
    ensures (result, changeMade) == ConjunctionRule(expr)
  {
    if !expr.ConjunctionExpr? { return expr, false; }
    var childExprs := expr.children;
    var iter := 0;
    while iter != |childExprs|
      invariant iter <= |childExprs|
      invariant ScanChildren(expr.conj, childExprs[..iter], childExprs[iter..]) == ScanChildren(expr.conj, [], expr.children)
      decreases |childExprs| - iter
    {
      assert childExprs[..iter] + childExprs[iter..] == childExprs;
      assert childExprs[..iter + 1] == childExprs[..iter] + [childExprs[iter]];
      assert childExprs[iter..][1..] == childExprs[iter + 1..];
      var constant := BoolConstant(childExprs[iter]);
      if constant.None? {
        iter := iter + 1;
      } else if (expr.conj.AND? && constant.value) || (expr.conj.OR? && !constant.value) {
        var erased := childExprs[..iter] + childExprs[iter + 1..];
        assert erased[..iter] == childExprs[..iter] && erased[iter..] == childExprs[iter + 1..];
        childExprs := erased;
      } else {
        return childExprs[0], false;
      }
    }
    assert childExprs[..iter] == childExprs && childExprs[iter..] == [];
    if |childExprs| == 1 { return childExprs[0], true; }
    return ConjunctionExpr(expr.conj, childExprs), false;
  }

  /** `ComparisonSimplificationRule::rewrite` */
  method SimplifyComparison(env: Env, expr: Expr) returns (result: Expr, changeMade: bool)
    ensures (result, changeMade) == ComparisonRule(env, expr)
    ensures forall t :: Eval(env, result, t) == Eval(env, expr, t)
    ensures changeMade <==> expr.ComparisonExpr? && expr.left.ValueExpr? && expr.right.ValueExpr? && expr.comp != NO_OP
    ensures if changeMade then Size(result) < Size(expr) else result == expr
  {
    FoldKeeps(env, expr);
    result, changeMade := expr, false;
    var cell := TryGetValue(env, expr);
    if cell.Some? {
      result, changeMade := ValueExpr(Booleans(cell.value)), true;
    }
  }

  /** `ExpressionRewriter::rewrite_expression` */
  method RewriteExpression(env: Env, expr: Expr) returns (result: Expr, changeMade: bool)
    ensures (result, changeMade) == RewriteExpr(env, expr)
    decreases Size(expr), 0
  {
    var subChange;
    changeMade := false;
    result, subChange := SimplifyComparison(env, expr);
    if subChange && !changeMade { changeMade := true; }
    result, subChange := SimplifyConjunction(result);
    if subChange && !changeMade { changeMade := true; }
    if changeMade { return; }
    match result
    case FieldExpr(_) =>
    case ValueExpr(_) =>
    case CastExpr(child, ty) =>
      var child';
      child', changeMade := RewriteExpression(env, child);
      result := CastExpr(child', ty);
    case ComparisonExpr(comp, left, right) =>
      var left', leftChange := RewriteExpression(env, left);
      var right', rightChange := RewriteExpression(env, right);
      if leftChange || rightChange { changeMade := true; }
      result := ComparisonExpr(comp, left', right');
    case ConjunctionExpr(conj, children) =>
      var children';
      children', changeMade := RewriteEach(env, children);
      result := ConjunctionExpr(conj, children');
  }

  /** The loop over a list of expressions, with its two flags. */
  method RewriteEach(env: Env, exprs: seq<Expr>) returns (result: seq<Expr>, changeMade: bool)
    ensures (result, changeMade) == RewriteExprs(env, exprs)
    decreases SizeAll(exprs), 1
  {
    result, changeMade := [], false;
    for i := 0 to |exprs|
      invariant result + RewriteExprs(env, exprs[i..]).0 == RewriteExprs(env, exprs).0
      invariant changeMade || RewriteExprs(env, exprs[i..]).1 <==> RewriteExprs(env, exprs).1
    {
      SizeAllAt(exprs, i);
      assert exprs[i..][1..] == exprs[i + 1..];
      var expr, subChange := RewriteExpression(env, exprs[i]);
      assert result + RewriteExprs(env, exprs[i..]).0 == result + [expr] + RewriteExprs(env, exprs[i + 1..]).0;
      result := result + [expr];
      if subChange && !changeMade { changeMade := true; }
    }
    assert exprs[|exprs|..] == [];
    assert result + [] == result;
  }

  lemma {:induction false} SizeAllAt(es: seq<Expr>, k: nat)
    requires k < |es|
    ensures Size(es[k]) <= SizeAll(es)
  {
    if k > 0 { SizeAllAt(es[1..], k - 1); }
  }

  /** `ExpressionRewriter::rewrite` */
  method RewriteExpressions(env: Env, oper: LogicalOper) returns (result: LogicalOper, changeMade: bool)
    ensures (result, changeMade) == ExpressionPass(env, oper)
    decreases oper
  {
    var expressions, children, subChange;
    expressions, changeMade := RewriteEach(env, oper.expressions);
    children, subChange := RewriteBelow(env, oper.children);
    if subChange && !changeMade { changeMade := true; }
    result := LogicalOper(oper.kind, expressions, children);
  }

  /** The loop over the children in `ExpressionRewriter::rewrite`. */
  method RewriteBelow(env: Env, opers: seq<LogicalOper>) returns (result: seq<LogicalOper>, changeMade: bool)
    ensures (result, changeMade) == ExpressionPassAll(env, opers)
    decreases opers
  {
    result, changeMade := [], false;
    for i := 0 to |opers|
      invariant result + ExpressionPassAll(env, opers[i..]).0 == ExpressionPassAll(env, opers).0
      invariant changeMade || ExpressionPassAll(env, opers[i..]).1 <==> ExpressionPassAll(env, opers).1
    {
      PassFrom(env, opers, i);
      var oper, subChange := RewriteExpressions(env, opers[i]);
      Moved(result, oper, ExpressionPassAll(env, opers[i + 1..]).0);
      result := result + [oper];
      if subChange && !changeMade { changeMade := true; }
    }
    assert opers[|opers|..] == [];
    assert result + [] == result;
  }

  lemma PassFrom(env: Env, os: seq<LogicalOper>, i: nat)
    requires i < |os|
    ensures var (o', c) := ExpressionPass(env, os[i]);
            var (rest, cs) := ExpressionPassAll(env, os[i + 1..]);
            ExpressionPassAll(env, os[i..]) == ([o'] + rest, c || cs)
  {
    assert os[i..][1..] == os[i + 1..];
  }

  lemma Moved<T>(done: seq<T>, x: T, rest: seq<T>)
    ensures done + ([x] + rest) == done + [x] + rest
  {
  }

  /** `PredicateRewriteRule::rewrite` */
  method RemoveConstantPredicate(env: Env, oper: LogicalOper) returns (result: LogicalOper, changeMade: bool)
    ensures (result, changeMade) == PredicateRule(env, oper)
  {
    if |oper.children| != 1 { return oper, false; }
    var child := oper.children[0];
    if !child.kind.Predicate? { return oper, false; }
    if |child.expressions| != 1 { return oper, false; }
    var expr := child.expressions[0];
    if !expr.ValueExpr? { return oper, false; }
    result := oper.(children := []);
    if GetBoolean(env, expr.cell) {
      for i := 0 to |child.children|
        invariant result == oper.(children := child.children[..i])
      {
        result := result.(children := result.children + [child.children[i]]);
      }
      assert child.children[..|child.children|] == child.children;
    }
    return result, true;
  }

  lemma Erased<T>(s: seq<T>, i: nat)
    requires i < |s|
    ensures var r := s[..i] + s[i + 1..]; r[..i] == s[..i] && r[i..] == s[i + 1..]
  {
  }

  lemma Replaced<T>(s: seq<T>, i: nat, x: T)
    requires i < |s|
    ensures s[i := x][..i + 1] == s[..i] + [x] && s[i := x][i + 1..] == s[i + 1..]
  {
  }

  lemma Regrouped<T>(a: seq<T>, b: seq<T>, c: seq<T>)
    ensures a + (b + c) == a + b + c
  {
  }

  /** `PredicatePushdownRewriter::get_exprs_can_pushdown`: None stands for the emptied pointer. */
  method GetExprsCanPushdown(expr: Expr, pushdownExprs: seq<Expr>)
    returns (rest: Option<Expr>, pushed: seq<Expr>)
    ensures rest == SplitPushdown(expr).0
    ensures pushed == pushdownExprs + SplitPushdown(expr).1
    decreases expr
  {
    pushed := pushdownExprs;
    if expr.ConjunctionExpr? {
      if expr.conj.OR? { return Some(expr), pushed; }
      var childExprs := expr.children;
      var iter := 0;
      ghost var passed := 0;
      while iter != |childExprs|
        invariant passed <= |expr.children|
        invariant iter <= |childExprs| && childExprs[iter..] == expr.children[passed..]
        invariant childExprs[..iter] + SplitAll(childExprs[iter..]).0 == SplitAll(expr.children).0
        invariant pushed + SplitAll(childExprs[iter..]).1 == pushdownExprs + SplitAll(expr.children).1
        decreases |childExprs| - iter
      {
        assert childExprs[iter] == expr.children[passed];
        assert childExprs[iter..][1..] == childExprs[iter + 1..];
        var before := childExprs;
        var child;
        ghost var was, tail := pushed, SplitAll(before[iter + 1..]);
        child, pushed := GetExprsCanPushdown(childExprs[iter], pushed);
        Regrouped(was, SplitPushdown(before[iter]).1, tail.1);
        if child.None? {
          childExprs := before[..iter] + before[iter + 1..];
          Erased(before, iter);
        } else {
          childExprs := before[iter := child.value];
          Replaced(before, iter, child.value);
          Regrouped(before[..iter], [child.value], tail.0);
          iter := iter + 1;
        }
        passed := passed + 1;
      }
      assert childExprs[iter..] == [] && childExprs[..iter] == childExprs;
      assert childExprs + [] == childExprs && pushed + [] == pushed;
      return Some(ConjunctionExpr(AND, childExprs)), pushed;
    } else if expr.ComparisonExpr? {
      if expr.comp != EQUAL_TO { return Some(expr), pushed; }
      if !expr.left.FieldExpr? && !expr.right.FieldExpr? { return Some(expr), pushed; }
      // A second test of the source, that one side is a field or a literal, never fails here.
      return None, pushed + [expr];
    }
    return Some(expr), pushed;
  }

  /** `PredicatePushdownRewriter::rewrite` */
  method PushDownPredicates(oper: LogicalOper) returns (result: LogicalOper, changeMade: bool)
    ensures (result, changeMade) == PushdownRule(oper)
  {
    if !oper.kind.Predicate? { return oper, false; }
    if |oper.children| != 1 { return oper, false; }
    var tableGet := oper.children[0];
    if !tableGet.kind.TableGet? { return oper, false; }
    if |oper.expressions| != 1 { return oper, false; }
    var rest, pushdownExprs := GetExprsCanPushdown(oper.expressions[0], []);
    assert pushdownExprs == SplitPushdown(oper.expressions[0]).1;
    var predicateExpr := if rest.None? then ValueExpr(Booleans(true)) else rest.value;
    result, changeMade := oper.(expressions := [predicateExpr]), false;
    if pushdownExprs != [] {
      changeMade := true;
      tableGet := tableGet.(kind := tableGet.kind.(predicates := pushdownExprs));
      result := result.(children := [tableGet]);
    } else {
      assert oper.children == [tableGet];
    }
  }

  /** `Rewriter::rewrite` */
  method Rewrite(env: Env, oper: LogicalOper) returns (result: LogicalOper, changeMade: bool)
    ensures (result, changeMade) == RewriteOnce(env, oper)
    decreases OperSize(oper), 0
  {
    var subChange;
    changeMade := false;
    result, subChange := RewriteExpressions(env, oper);
    if subChange && !changeMade { changeMade := true; }
    result, subChange := RemoveConstantPredicate(env, result);
    if subChange && !changeMade { changeMade := true; }
    result, subChange := PushDownPredicates(result);
    if subChange && !changeMade { changeMade := true; }
    assert (result, changeMade) == RulesAt(env, oper);
    var children;
    children, subChange := RewriteChildren(env, result.children);
    if subChange && !changeMade { changeMade := true; }
    result := result.(children := children);
  }

  /** The loop over the children in `Rewriter::rewrite`. */
  method RewriteChildren(env: Env, opers: seq<LogicalOper>) returns (result: seq<LogicalOper>, changeMade: bool)
    ensures (result, changeMade) == RewriteOnceAll(env, opers)
    decreases OperSizeAll(opers), 1
  {
    result, changeMade := [], false;
    for i := 0 to |opers|
      invariant result + RewriteOnceAll(env, opers[i..]).0 == RewriteOnceAll(env, opers).0
      invariant changeMade || RewriteOnceAll(env, opers[i..]).1 <==> RewriteOnceAll(env, opers).1
    {
      OperSizeAllAt(opers, i);
      OnceFrom(env, opers, i);
      var oper, subChange := Rewrite(env, opers[i]);
      Moved(result, oper, RewriteOnceAll(env, opers[i + 1..]).0);
      result := result + [oper];
      if subChange && !changeMade { changeMade := true; }
    }
    assert opers[|opers|..] == [];
    assert result + [] == result;
  }

  lemma OnceFrom(env: Env, os: seq<LogicalOper>, i: nat)
    requires i < |os|
    ensures var (o', c) := RewriteOnce(env, os[i]);
            var (rest, cs) := RewriteOnceAll(env, os[i + 1..]);
            RewriteOnceAll(env, os[i..]) == ([o'] + rest, c || cs)
  {
    assert os[i..][1..] == os[i + 1..];
  }

  lemma {:induction false} OperSizeAllAt(os: seq<LogicalOper>, k: nat)
    requires k < |os|
    ensures OperSize(os[k]) <= OperSizeAll(os)
  {
    if k > 0 { OperSizeAllAt(os[1..], k - 1); }
  }

  /** `OptimizeStage::rewrite` */
  method RewriteToFixpoint(env: Env, oper: LogicalOper) returns (result: LogicalOper)
    ensures result == RewriteLoop(env, oper)
  {
    result := oper;
    var changeMade := true;
    while changeMade
      invariant if changeMade then RewriteLoop(env, result) == RewriteLoop(env, oper)
                else result == RewriteLoop(env, oper)
      decreases OperSize(result), changeMade
    {
      result, changeMade := Rewrite(env, result);
    }
  }
}
