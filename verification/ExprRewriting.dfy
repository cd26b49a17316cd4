/** The expression-level rewrite rules: constant folding of comparisons, simplification of
    conjunctions, and the split of a predicate into pushed and residual parts. */
module ExprRewriting {

  import opened Wrappers
  import opened Expressions

  // ---------- comparison folding ----------

  function TryGetValue(env: Env, e: Expr): Option<bool> {
    if e.ComparisonExpr? && e.left.ValueExpr? && e.right.ValueExpr? then
      match CompareCells(env, e.comp, e.left.cell, e.right.cell)
      case Ok(b) => Some(b)
      case Err(_) => None
    else None
  }

  function ComparisonRule(env: Env, e: Expr): (Expr, bool) {
    match TryGetValue(env, e)
    case Some(b) => (ValueExpr(Booleans(b)), true)
    case None => (e, false)
  }

  /** Folding keeps the value of the expression on every tuple, and its errors; it happens exactly
      for a comparison of two literals by a known operator, and then leaves a single node. */
  lemma FoldKeeps(env: Env, e: Expr)
    ensures var (e', c) := ComparisonRule(env, e);
            && (forall t :: Eval(env, e', t) == Eval(env, e, t))
            && (c <==> e.ComparisonExpr? && e.left.ValueExpr? && e.right.ValueExpr? && e.comp != NO_OP)
            && (if c then Size(e') == 1 && Size(e) == 3 else e' == e)
  {
    if TryGetValue(env, e).Some? {
      assert Size(e.left) == 1 && Size(e.right) == 1;
      forall t ensures Eval(env, e, t) == Ok(Booleans(TryGetValue(env, e).value)) {
        assert Eval(env, e.left, t) == Ok(e.left.cell) && Eval(env, e.right, t) == Ok(e.right.cell);
      }
    }
  }

  // ---------- conjunction simplification ----------

  function BoolConstant(e: Expr): Option<bool> {
    if e.ValueExpr? && e.cell.Booleans? then Some(e.cell.b) else None
  }

  /** What is left of a child list: either the whole conjunction is replaced by `front`, or the
      children `kept` stay. */
  datatype Remaining = Absorbed(front: Expr) | Kept(kept: seq<Expr>)

  /** `kept` are the children already passed, `rest` those still to look at. An absorbing
      constant replaces the conjunction by the FIRST remaining child, as the source does. */
  function ScanChildren(conj: ConjunctionType, kept: seq<Expr>, rest: seq<Expr>): Remaining
    decreases |rest|
  {
    if rest == [] then Kept(kept) else
    match BoolConstant(rest[0])
    case None => ScanChildren(conj, kept + [rest[0]], rest[1..])
    case Some(b) =>
      if b == conj.AND? then ScanChildren(conj, kept, rest[1..])
      else Absorbed((kept + rest)[0])
  }

  lemma {:induction false} ScanSize(conj: ConjunctionType, kept: seq<Expr>, rest: seq<Expr>)
    ensures var s := ScanChildren(conj, kept, rest);
            match s
            case Kept(cs) => SizeAll(cs) <= SizeAll(kept) + SizeAll(rest)
            case Absorbed(f) => Size(f) <= SizeAll(kept) + SizeAll(rest)
    decreases |rest|
  {
    if rest != [] {
      match BoolConstant(rest[0])
      case None =>
        SizeAllConcat(kept, [rest[0]]);
        ScanSize(conj, kept + [rest[0]], rest[1..]);
      case Some(b) =>
        if b == conj.AND? {
          ScanSize(conj, kept, rest[1..]);
        } else {
          SizeAllConcat(kept, rest);
        }
    }
  }

  function ConjunctionRule(e: Expr): (r: (Expr, bool))
    ensures Size(r.0) <= Size(e)
    ensures r.1 ==> Size(r.0) < Size(e)
  {
    if !e.ConjunctionExpr? then (e, false) else
    ScanSize(e.conj, [], e.children);
    match ScanChildren(e.conj, [], e.children)
    case Absorbed(front) => (front, false)
    case Kept(cs) => if |cs| == 1 then (cs[0], true) else (ConjunctionExpr(e.conj, cs), false)
  }

  // ---------- one pass over an expression ----------

  /** `rewrite_expression`: both rules at the node; only when neither reports a change does the
      pass go on into the subexpressions. */
  function RewriteExpr(env: Env, e: Expr): (r: (Expr, bool))
    ensures Size(r.0) <= Size(e)
    ensures r.1 ==> Size(r.0) < Size(e)
    decreases Size(e), 0
  {
    var (e1, c1) := ComparisonRule(env, e);
    var (e2, c2) := ConjunctionRule(e1);
    if c1 || c2 then (e2, true) else
    match e2
    case FieldExpr(_) => (e2, false)
    case ValueExpr(_) => (e2, false)
    case CastExpr(child, ty) =>
      var (child', c) := RewriteExpr(env, child);
      (CastExpr(child', ty), c)
    case ComparisonExpr(comp, left, right) =>
      var (left', lc) := RewriteExpr(env, left);
      var (right', rc) := RewriteExpr(env, right);
      (ComparisonExpr(comp, left', right'), lc || rc)
    case ConjunctionExpr(conj, children) =>
      var (children', c) := RewriteExprs(env, children);
      (ConjunctionExpr(conj, children'), c)
  }

  function RewriteExprs(env: Env, es: seq<Expr>): (r: (seq<Expr>, bool))
    ensures |r.0| == |es|
    ensures SizeAll(r.0) <= SizeAll(es)
    ensures r.1 ==> SizeAll(r.0) < SizeAll(es)
    decreases SizeAll(es), 1
  {
    if es == [] then ([], false) else
    var (e', c) := RewriteExpr(env, es[0]);
    var (rest, cs) := RewriteExprs(env, es[1..]);
    ([e'] + rest, c || cs)
  }

  lemma {:induction false} RewriteExprsAt(env: Env, es: seq<Expr>, k: nat)
    requires k < |es|
    ensures RewriteExprs(env, es).0[k] == RewriteExpr(env, es[k]).0
    ensures RewriteExpr(env, es[k]).1 ==> RewriteExprs(env, es).1
  {
    if k > 0 { RewriteExprsAt(env, es[1..], k - 1); }
  }

  lemma {:induction false} RewriteExprsUnchanged(env: Env, es: seq<Expr>)
    requires forall k :: 0 <= k < |es| ==> !RewriteExpr(env, es[k]).1
    ensures !RewriteExprs(env, es).1
  {
    if es != [] {
      forall k | 0 <= k < |es[1..]| ensures !RewriteExpr(env, es[1..][k]).1 {
        assert es[1..][k] == es[k + 1];
      }
      assert !RewriteExpr(env, es[0]).1;
      RewriteExprsUnchanged(env, es[1..]);
    }
  }

  // ---------- the split for pushdown ----------

  predicate IsPushable(e: Expr) {
    && e.ComparisonExpr?
    && e.comp == EQUAL_TO
    && (e.left.FieldExpr? || e.right.FieldExpr?)
    && (e.left.FieldExpr? || e.left.ValueExpr? || e.right.FieldExpr? || e.right.ValueExpr?)
  }

  /** `get_exprs_can_pushdown`: the residual expression (None once moved away) and the
      comparisons moved to the table operator, in order. */
  function SplitPushdown(e: Expr): (r: (Option<Expr>, seq<Expr>))
    decreases e, 0
  {
    if e.ConjunctionExpr? then
      if e.conj.OR? then (Some(e), []) else
      var (kept, pushed) := SplitAll(e.children);
      (Some(ConjunctionExpr(AND, kept)), pushed)
    else if IsPushable(e) then (None, [e])
    else (Some(e), [])
  }

  function SplitAll(es: seq<Expr>): (r: (seq<Expr>, seq<Expr>))
    decreases es, 1
  {
    if es == [] then ([], []) else
    var (e', pushed) := SplitPushdown(es[0]);
    var (kept, rest) := SplitAll(es[1..]);
    ((if e'.Some? then [e'.value] else []) + kept, pushed + rest)
  }

  /** Through any nesting of ANDs, the predicate is the residual and the pushed comparisons
      together, and every pushed expression is a pushable equality. */
  lemma {:induction false} SplitMeaning(env: Env, e: Expr, t: Tuple)
    ensures var (e', pushed) := SplitPushdown(e);
            && (Holds(env, e, t) <==> (e'.Some? ==> Holds(env, e'.value, t)) && AllHold(env, pushed, t))
            && (forall i :: 0 <= i < |pushed| ==> IsPushable(pushed[i]))
    decreases e, 0
  {
    if e.ConjunctionExpr? && e.conj.AND? {
      SplitAllMeaning(env, e.children, t);
      AndHolds(env, e.children, t);
      AndHolds(env, SplitAll(e.children).0, t);
      assert e == ConjunctionExpr(AND, e.children);
    } else {
      assert [e][0] == e;
    }
  }

  lemma {:induction false} SplitAllMeaning(env: Env, es: seq<Expr>, t: Tuple)
    ensures var (kept, pushed) := SplitAll(es);
            && (AllHold(env, es, t) <==> AllHold(env, kept, t) && AllHold(env, pushed, t))
            && (forall i :: 0 <= i < |pushed| ==> IsPushable(pushed[i]))
    decreases es, 1
  {
    if es != [] {
      SplitMeaning(env, es[0], t);
      SplitAllMeaning(env, es[1..], t);
      var (e', pushed) := SplitPushdown(es[0]);
      var (kept, rest) := SplitAll(es[1..]);
      assert es == [es[0]] + es[1..];
      AllHoldConcat(env, [es[0]], es[1..], t);
      assert AllHold(env, [es[0]], t) <==> Holds(env, [es[0]][0], t);
      var head := if e'.Some? then [e'.value] else [];
      assert AllHold(env, head, t) <==> (e'.Some? ==> Holds(env, e'.value, t)) by {
        if e'.Some? { assert head[0] == e'.value; }
      }
      AllHoldConcat(env, head, kept, t);
      AllHoldConcat(env, pushed, rest, t);
    }
  }

  lemma AllHoldConcat(env: Env, a: seq<Expr>, b: seq<Expr>, t: Tuple)
    ensures AllHold(env, a + b, t) <==> AllHold(env, a, t) && AllHold(env, b, t)
  {
    if AllHold(env, a + b, t) {
      assert forall i :: 0 <= i < |a| ==> a[i] == (a + b)[i];
      assert forall i :: 0 <= i < |b| ==> b[i] == (a + b)[|a| + i];
    }
  }

  /** The split never adds nodes and takes the pushed ones away. */
  lemma {:induction false} SplitSize(e: Expr)
    ensures var (e', pushed) := SplitPushdown(e);
            && (e'.Some? ==> Size(e'.value) + SizeAll(pushed) <= Size(e))
            && (e'.None? ==> pushed == [e] && IsPushable(e))
    decreases e, 0
  {
    if e.ConjunctionExpr? && e.conj.AND? {
      SplitAllSize(e.children);
    }
  }

  lemma {:induction false} SplitAllSize(es: seq<Expr>)
    ensures SizeAll(SplitAll(es).0) + SizeAll(SplitAll(es).1) <= SizeAll(es)
    decreases es, 1
  {
    if es != [] {
      SplitSize(es[0]);
      SplitAllSize(es[1..]);
      var (e', pushed) := SplitPushdown(es[0]);
      var (kept, rest) := SplitAll(es[1..]);
      SizeAllConcat(if e'.Some? then [e'.value] else [], kept);
      SizeAllConcat(pushed, rest);
    }
  }

  /** Splitting the residual again moves nothing: one split takes everything pushable. */
  lemma {:induction false} SplitTwice(e: Expr)
    ensures SplitPushdown(e).0.Some? ==>
            SplitPushdown(SplitPushdown(e).0.value) == (SplitPushdown(e).0, [])
    decreases e, 0
  {
    if e.ConjunctionExpr? && e.conj.AND? {
      SplitAllTwice(e.children);
    }
  }

  lemma {:induction false} SplitAllTwice(es: seq<Expr>)
    ensures SplitAll(SplitAll(es).0) == (SplitAll(es).0, [])
    decreases es, 1
  {
    if es != [] {
      SplitTwice(es[0]);
      SplitAllTwice(es[1..]);
      var e' := SplitPushdown(es[0]).0;
      var kept := SplitAll(es[1..]).0;
      if e'.Some? {
        assert ([e'.value] + kept)[1..] == kept;
      } else {
        assert [] + kept == kept;
      }
    }
  }
}
