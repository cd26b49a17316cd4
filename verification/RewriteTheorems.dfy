/** What the rewrite loop does to the plans the planner builds. */
module RewriteTheorems {

  import opened Wrappers
  import opened Expressions
  import opened ExprRewriting
  import opened FlatFilters
  import opened LogicalPlans

  // ---------- planner-built plans ----------

  /** A join tree of table scans. Only a scan that is alone may hold predicates. */
  predicate IsSource(o: LogicalOper)
    decreases o, 0
  {
    && o.expressions == []
    && match o.kind
       case TableGet(_, _, _) => o.children == []
       case Join => |o.children| == 2 && IsBare(o.children[0]) && IsBare(o.children[1])
       case _ => false
  }

  predicate IsBare(o: LogicalOper)
    decreases o, 1
  {
    IsSource(o) && (o.kind.TableGet? ==> o.kind.predicates == [])
  }

  /** The tables of a source, in FROM order. */
  function TablesOf(o: LogicalOper): seq<Table>
    decreases o
  {
    match o.kind
    case TableGet(table, _, _) => [table]
    case Join => if |o.children| == 2 then TablesOf(o.children[0]) + TablesOf(o.children[1]) else []
    case _ => []
  }

  /** The source under a planned operator. */
  function SourceOf(o: LogicalOper): LogicalOper
    requires |o.children| == 1
    requires o.children[0].kind.Predicate? ==> |o.children[0].children| == 1
  {
    if o.children[0].kind.Predicate? then o.children[0].children[0] else o.children[0]
  }

  /** The predicates held by the scan under a planned operator, if it has a single one. */
  function HandedTo(o: LogicalOper): seq<Expr> {
    if |o.children| != 1 then [] else
    var c := o.children[0];
    var source := if c.kind.Predicate? && |c.children| == 1 then c.children[0] else c;
    if source.kind.TableGet? then source.kind.predicates else []
  }

  /** Predicates once handed to the scan stay as they are. */
  predicate KeepsHanded(o: LogicalOper, o': LogicalOper) {
    HandedTo(o) != [] && o'.children != [] ==> HandedTo(o') == HandedTo(o)
  }

  /** A flat filter over a source. When equalities were already handed to the table operator
      below, none is left in the filter: so `set_predicates` never replaces a non-empty list. */
  predicate IsFilter(env: Env, o: LogicalOper) {
    && o.kind.Predicate?
    && |o.expressions| == 1 && IsFlat(env, o.expressions[0])
    && |o.children| == 1 && IsSource(o.children[0])
    && (o.children[0].kind.TableGet? && o.children[0].kind.predicates != [] ==> NothingToPush(o.expressions[0]))
  }

  predicate NothingToPush(e: Expr) {
    && !IsPushable(e)
    && (e.ConjunctionExpr? ==> forall i :: 0 <= i < |e.children| ==> !IsPushable(e.children[i]))
  }

  predicate IsPlanned(env: Env, o: LogicalOper) {
    && (o.kind.Projection? || o.kind.Delete?)
    && o.expressions == []
    && (o.children == [] || (|o.children| == 1 && (IsSource(o.children[0]) || IsFilter(env, o.children[0]))))
  }

  // ---------- the meaning kept by every round ----------

  function OutcomeFilter(env: Env, e: Expr, ts: seq<Tuple>): seq<Tuple> {
    if ts == [] then [] else
    (if Outcome(env, e, ts[0]) then [ts[0]] else []) + OutcomeFilter(env, e, ts[1..])
  }

  function RowsBelow(env: Env, o: LogicalOper): seq<Tuple> {
    if IsFilter(env, o) then OutcomeFilter(env, o.expressions[0], Denote(env, o.children[0])) else Denote(env, o)
  }

  function Finish(kind: OperKind, ts: seq<Tuple>): seq<Tuple> {
    if kind.Projection? then Project(Specs(kind.outputs), ts) else ts
  }

  /** What a planned operator produces in the end: its filter applied by `Outcome`. */
  function Meaning(env: Env, o: LogicalOper): seq<Tuple> {
    if o.children == [] then [] else Finish(o.kind, RowsBelow(env, o.children[0]))
  }

  /** The filter is in the form no rule changes, and does not decide by itself. */
  predicate IsNormal(env: Env, o: LogicalOper) {
    o.children != [] && o.children[0].kind.Predicate? ==>
      var c := o.children[0];
      && IsFilter(env, c)
      && IsClean(env, c.expressions[0])
      && !c.expressions[0].ValueExpr?
      && (c.children[0].kind.TableGet? ==> NothingToPush(c.expressions[0]))
  }

  predicate IsCleaned(env: Env, o: LogicalOper) {
    o.children != [] && o.children[0].kind.Predicate? ==>
      IsFilter(env, o.children[0]) && IsSettled(env, o.children[0].expressions[0])
  }

  /** No constant is left to fold or absorb. */
  predicate IsSettled(env: Env, e: Expr) {
    || (IsLeaf(e) && TryGetValue(env, e).None?)
    || (e.ConjunctionExpr? && e.conj.AND? && AllResidual(env, e.children))
  }

  // ---------- lists of one ----------

  lemma ExprsOne(env: Env, e: Expr)
    ensures RewriteExprs(env, [e]) == ([RewriteExpr(env, e).0], RewriteExpr(env, e).1)
    ensures RewriteExprs(env, []) == ([], false)
  {
    assert [e][1..] == [];
    assert [RewriteExpr(env, e).0] + [] == [RewriteExpr(env, e).0];
  }

  lemma PassOne(env: Env, o: LogicalOper)
    ensures ExpressionPassAll(env, [o]) == ([ExpressionPass(env, o).0], ExpressionPass(env, o).1)
    ensures ExpressionPassAll(env, []) == ([], false)
  {
    assert [o][1..] == [];
    assert [ExpressionPass(env, o).0] + [] == [ExpressionPass(env, o).0];
  }

  lemma OnceOne(env: Env, o: LogicalOper)
    ensures RewriteOnceAll(env, [o]) == ([RewriteOnce(env, o).0], RewriteOnce(env, o).1)
    ensures RewriteOnceAll(env, []) == ([], false)
  {
    assert [o][1..] == [];
    assert [RewriteOnce(env, o).0] + [] == [RewriteOnce(env, o).0];
  }

  // ---------- sources are left alone ----------

  lemma {:induction false} SourcePass(env: Env, o: LogicalOper)
    requires IsSource(o)
    ensures ExpressionPass(env, o) == (o, false)
    decreases o
  {
    assert RewriteExprs(env, o.expressions) == (o.expressions, false);
    if o.kind.Join? {
      var l, r := o.children[0], o.children[1];
      SourcePass(env, l);
      SourcePass(env, r);
      assert o.children == [l, r] && [l, r][1..] == [r];
      PassOne(env, r);
      assert [l] + [r] == o.children;
      assert ExpressionPassAll(env, [l, r]) == ([l] + [r], false);
    } else {
      assert ExpressionPassAll(env, o.children) == (o.children, false);
    }
  }

  lemma {:induction false} SourceStays(env: Env, o: LogicalOper)
    requires IsSource(o)
    ensures RewriteOnce(env, o) == (o, false)
    decreases o
  {
    SourcePass(env, o);
    assert RulesAt(env, o) == (o, false);
    if o.kind.Join? {
      var l, r := o.children[0], o.children[1];
      SourceStays(env, l);
      SourceStays(env, r);
      assert o.children == [l, r] && [l, r][1..] == [r];
      OnceOne(env, r);
      assert [l] + [r] == o.children;
      assert RewriteOnceAll(env, [l, r]) == ([l] + [r], false);
    } else {
      assert RewriteOnceAll(env, o.children) == (o.children, false);
    }
  }

  // ---------- filters ----------

  lemma {:induction false} OutcomeFilterSame(env: Env, e: Expr, e': Expr, ts: seq<Tuple>)
    requires forall t :: Outcome(env, e, t) <==> Outcome(env, e', t)
    ensures OutcomeFilter(env, e, ts) == OutcomeFilter(env, e', ts)
  {
    if ts != [] { OutcomeFilterSame(env, e, e', ts[1..]); }
  }

  lemma {:induction false} OutcomeFilterConstant(env: Env, e: Expr, ts: seq<Tuple>)
    requires e.ValueExpr?
    ensures OutcomeFilter(env, e, ts) == if GetBoolean(env, e.cell) then ts else []
  {
    if ts != [] { OutcomeFilterConstant(env, e, ts[1..]); }
  }

  lemma {:induction false} OutcomeFilterHolds(env: Env, e: Expr, ts: seq<Tuple>)
    requires IsSettled(env, e)
    ensures OutcomeFilter(env, e, ts) == Filter(env, e, ts)
  {
    if ts != [] {
      SettledMeans(env, e, ts[0]);
      OutcomeFilterHolds(env, e, ts[1..]);
    }
  }

  /** Nothing is constant in a settled filter, so its outcome is what it says. */
  lemma SettledMeans(env: Env, e: Expr, t: Tuple)
    requires IsSettled(env, e)
    ensures Outcome(env, e, t) <==> Holds(env, e, t)
  {
    if e.ConjunctionExpr? {
      assert !HasFalse(env, e.children);
      AndHolds(env, e.children, t);
      assert e == ConjunctionExpr(AND, e.children);
    }
  }

  lemma RewriteKeepsNothingToPush(env: Env, e: Expr)
    requires IsFlat(env, e) && NothingToPush(e)
    ensures NothingToPush(RewriteExpr(env, e).0)
  {
    if IsLeaf(e) {
      RewriteLeaf(env, e);
    } else if AllComparisons(e.children) {
      ScanComparisons([], e.children);
      assert [] + e.children == e.children;
      if |e.children| != 1 { FoldedNothingToPush(env, e.children); }
    } else {
      ScanIn(AND, [], e.children);
      assert [] + e.children == e.children;
      forall c | c in e.children ensures IsLeaf(c) && TryGetValue(env, c).None? && !IsPushable(c) {
        var i :| 0 <= i < |e.children| && e.children[i] == c;
      }
      match ScanChildren(AND, [], e.children)
      case Absorbed(f) =>
        RewriteLeafTail(env, f);
      case Kept(cs) =>
        assert forall i :: 0 <= i < |cs| ==> cs[i] in e.children;
        if |cs| != 1 { FoldedNothingToPush(env, cs); }
    }
  }

  lemma FoldedNothingToPush(env: Env, cs: seq<Expr>)
    requires forall i :: 0 <= i < |cs| ==> IsLeaf(cs[i]) && !IsPushable(cs[i])
    ensures forall i :: 0 <= i < |cs| ==> !IsPushable(RewriteExprs(env, cs).0[i])
  {
    forall i | 0 <= i < |cs| ensures !IsPushable(RewriteExprs(env, cs).0[i]) {
      RewriteExprsAt(env, cs, i);
      RewriteLeaf(env, cs[i]);
    }
  }

  lemma {:induction false} ScanIn(conj: ConjunctionType, kept: seq<Expr>, rest: seq<Expr>)
    ensures match ScanChildren(conj, kept, rest)
            case Absorbed(f) => f in kept + rest
            case Kept(cs) => forall c :: c in cs ==> c in kept + rest
    decreases |rest|
  {
    if rest != [] {
      assert kept + rest == kept + [rest[0]] + rest[1..];
      match BoolConstant(rest[0])
      case None => ScanIn(conj, kept + [rest[0]], rest[1..]);
      case Some(b) => if b == conj.AND? { ScanIn(conj, kept, rest[1..]); }
    }
  }

  // ---------- pushdown ----------

  lemma {:induction false} SplitLeaves(env: Env, cs: seq<Expr>)
    requires AllResidual(env, cs)
    ensures var (kept, pushed) := SplitAll(cs);
            && AllResidual(env, kept)
            && (forall i :: 0 <= i < |kept| ==> !IsPushable(kept[i]))
            && (pushed == [] ==> kept == cs)
  {
    if cs != [] {
      assert cs == [cs[0]] + cs[1..];
      SplitLeaves(env, cs[1..]);
    }
  }

  /** Splitting a settled filter over a bare scan and filtering in both places keeps the rows; and
      only a scan that holds no predicates is given some. */
  lemma PushdownMeaning(env: Env, o: LogicalOper)
    requires IsFilter(env, o) && IsSettled(env, o.expressions[0])
    ensures var (o', c) := PushdownRule(o);
            && IsFilter(env, o') && IsSettled(env, o'.expressions[0])
            && RowsBelow(env, o') == RowsBelow(env, o)
            && TablesOf(o'.children[0]) == TablesOf(o.children[0])
            && (!c ==> o' == o && (o.children[0].kind.TableGet? ==> NothingToPush(o.expressions[0])))
            && (c ==> o.children[0].kind.TableGet? && o.children[0].kind.predicates == [])
  {
    var e := o.expressions[0];
    var table := o.children[0];
    if !table.kind.TableGet? { return; }
    var (rest, pushed) := SplitPushdown(e);
    assert o.expressions == [e] && o.children == [table];
    if e.ConjunctionExpr? {
      SplitLeaves(env, e.children);
    }
    if pushed == [] {
      assert rest == Some(e);
    } else {
      var e' := if rest.Some? then rest.value else ValueExpr(Booleans(true));
      assert table.kind.predicates == [] by {
        SomethingPushed(env, e);
      }
      forall t ensures Outcome(env, e, t) <==> Outcome(env, e', t) && AllHold(env, pushed, t) {
        SplitMeaning(env, e, t);
        SettledMeans(env, e, t);
        SettledMeans(env, e', t);
      }
      ScanSplit(env, table.kind.table, table.kind.table.rows, e, e', pushed);
    }
  }

  lemma SomethingPushed(env: Env, e: Expr)
    requires IsSettled(env, e) && SplitPushdown(e).1 != []
    ensures !NothingToPush(e)
  {
    if e.ConjunctionExpr? && NothingToPush(e) {
      NothingSplit(e.children);
    }
  }

  lemma {:induction false} NothingSplit(cs: seq<Expr>)
    requires forall i :: 0 <= i < |cs| ==> !IsPushable(cs[i]) && !cs[i].ConjunctionExpr?
    ensures SplitAll(cs).1 == []
  {
    if cs != [] { NothingSplit(cs[1..]); }
  }

  lemma {:induction false} ScanSplit(env: Env, table: Table, rows: seq<Record>, e: Expr, e': Expr, pushed: seq<Expr>)
    requires forall t :: Outcome(env, e, t) <==> Outcome(env, e', t) && AllHold(env, pushed, t)
    ensures OutcomeFilter(env, e', ScanTable(env, table, rows, pushed)) == OutcomeFilter(env, e, ScanTable(env, table, rows, []))
  {
    if rows != [] {
      ScanSplit(env, table, rows[1..], e, e', pushed);
      var t := RowTuple(table, rows[0]);
      assert ScanTable(env, table, rows, [])[1..] == ScanTable(env, table, rows[1..], []);
      if AllHold(env, pushed, t) {
        assert ScanTable(env, table, rows, pushed)[1..] == ScanTable(env, table, rows[1..], pushed);
      } else {
        assert ScanTable(env, table, rows, pushed) == ScanTable(env, table, rows[1..], pushed);
      }
    }
  }

  // ---------- one round ----------

  /** The expression pass over a filter rewrites its one expression and nothing else. */
  lemma FilterPass(env: Env, o: LogicalOper)
    requires IsFilter(env, o)
    ensures var (e', c) := RewriteExpr(env, o.expressions[0]);
            ExpressionPass(env, o) == (o.(expressions := [e']), c)
    ensures IsFilter(env, ExpressionPass(env, o).0)
    ensures RowsBelow(env, ExpressionPass(env, o).0) == RowsBelow(env, o)
  {
    var e := o.expressions[0];
    assert o.expressions == [e] && o.children == [o.children[0]];
    SourcePass(env, o.children[0]);
    ExprsOne(env, e);
    PassOne(env, o.children[0]);
    RewriteFlat(env, e);
    if NothingToPush(e) { RewriteKeepsNothingToPush(env, e); }
    OutcomeFilterSame(env, RewriteExpr(env, e).0, e, Denote(env, o.children[0]));
  }

  /** `RewriteOnce` at the filter, after the pass that was made from the root. */
  lemma FilterRound(env: Env, o: LogicalOper)
    requires IsFilter(env, o)
    requires IsClean(env, RewriteExpr(env, o.expressions[0]).0)
    ensures var (o', c) := RewriteOnce(env, o);
            && IsFilter(env, o') && IsSettled(env, o'.expressions[0])
            && RowsBelow(env, o') == RowsBelow(env, o)
            && TablesOf(o'.children[0]) == TablesOf(o.children[0])
            && (!c ==> o' == o.(expressions := [RewriteExpr(env, o.expressions[0]).0]))
            && (!c && o'.children[0].kind.TableGet? ==> NothingToPush(o'.expressions[0]))
            && (o.children[0].kind.TableGet? && o.children[0].kind.predicates != [] ==> o'.children == o.children)
  {
    FilterPass(env, o);
    var o1 := ExpressionPass(env, o).0;
    assert PredicateRule(env, o1) == (o1, false);
    PushdownMeaning(env, o1);
    var o3 := PushdownRule(o1).0;
    SourceStays(env, o3.children[0]);
    assert o3.children == [o3.children[0]];
    OnceOne(env, o3.children[0]);
    assert RewriteOnceAll(env, o3.children) == (o3.children, false);
  }

  /** One round keeps the shape and the meaning of a planned operator, settles its filter, and
      reports nothing only when the plan is in normal form. */
  lemma Round(env: Env, o: LogicalOper)
    requires IsPlanned(env, o)
    ensures var (o', c) := RewriteOnce(env, o);
            && IsPlanned(env, o') && o'.kind == o.kind
            && Meaning(env, o') == Meaning(env, o)
            && IsCleaned(env, o')
            && (o'.children != [] ==> o.children != [] && TablesOf(SourceOf(o')) == TablesOf(SourceOf(o)))
            && KeepsHanded(o, o')
            && (!c ==> IsNormal(env, o'))
  {
    PassOne(env, o);
    OnceOne(env, o);
    assert RewriteExprs(env, []) == ([], false);
    if o.children != [] {
      assert o.children == [o.children[0]];
      if IsSource(o.children[0]) {
        SourcePass(env, o.children[0]);
        PassOne(env, o.children[0]);
        OnceOne(env, o.children[0]);
        SourceStays(env, o.children[0]);
        assert ExpressionPass(env, o) == (o, false);
        assert RulesAt(env, o) == (o, false);
        assert RewriteOnce(env, o) == (o, false);
      } else {
        FilteredRound(env, o);
      }
    }
  }

  /** The rules at the root reduce to the pass over the filter and the removal of a constant
      predicate. */
  lemma RulesAtRoot(env: Env, o: LogicalOper)
    requires IsPlanned(env, o) && |o.children| == 1 && IsFilter(env, o.children[0])
    ensures var f1 := ExpressionPass(env, o.children[0]).0;
            var (o2, c2) := PredicateRule(env, o.(children := [f1]));
            RulesAt(env, o) == (o2, ExpressionPass(env, o.children[0]).1 || c2)
  {
    var f := o.children[0];
    assert o.children == [f];
    PassOne(env, f);
    assert RewriteExprs(env, []) == ([], false);
    assert ExpressionPass(env, o) == (o.(children := [ExpressionPass(env, f).0]), ExpressionPass(env, f).1);
  }

  lemma FilteredRound(env: Env, o: LogicalOper)
    requires IsPlanned(env, o) && |o.children| == 1 && IsFilter(env, o.children[0])
    ensures var (o', c) := RewriteOnce(env, o);
            && IsPlanned(env, o') && o'.kind == o.kind
            && Meaning(env, o') == Meaning(env, o)
            && IsCleaned(env, o')
            && (o'.children != [] ==> o.children != [] && TablesOf(SourceOf(o')) == TablesOf(SourceOf(o)))
            && KeepsHanded(o, o')
            && (!c ==> IsNormal(env, o'))
  {
    var f1 := ExpressionPass(env, o.children[0]).0;
    FilterPass(env, o.children[0]);
    RulesAtRoot(env, o);
    if f1.expressions[0].ValueExpr? {
      ConstantRound(env, o, f1);
    } else {
      RemainingRound(env, o, f1);
    }
  }

  lemma ConstantRound(env: Env, o: LogicalOper, f1: LogicalOper)
    requires IsPlanned(env, o) && |o.children| == 1 && IsFilter(env, o.children[0])
    requires f1 == ExpressionPass(env, o.children[0]).0 && IsFilter(env, f1) && f1.expressions[0].ValueExpr?
    requires RowsBelow(env, f1) == RowsBelow(env, o.children[0])
    requires f1.children == o.children[0].children
    requires RulesAt(env, o) == (PredicateRule(env, o.(children := [f1])).0, true)
    ensures var (o', c) := RewriteOnce(env, o);
            && c && IsPlanned(env, o') && o'.kind == o.kind
            && Meaning(env, o') == Meaning(env, o)
            && IsCleaned(env, o')
            && (o'.children != [] ==> o.children != [] && TablesOf(SourceOf(o')) == TablesOf(SourceOf(o)))
            && KeepsHanded(o, o')
  {
    var source := f1.children[0];
    OutcomeFilterConstant(env, f1.expressions[0], Denote(env, source));
    OnceOne(env, source);
    SourceStays(env, source);
    var o2 := RulesAt(env, o).0;
    if GetBoolean(env, f1.expressions[0].cell) {
      assert o2 == o.(children := [source]) by { assert f1.children == [source]; }
      assert RewriteOnce(env, o).0 == o2;
      assert !IsFilter(env, source);
    } else {
      assert o2 == o.(children := []);
      assert RewriteOnce(env, o).0 == o2;
      assert RowsBelow(env, o.children[0]) == [];
    }
  }

  lemma RemainingRound(env: Env, o: LogicalOper, f1: LogicalOper)
    requires IsPlanned(env, o) && |o.children| == 1 && IsFilter(env, o.children[0])
    requires f1 == ExpressionPass(env, o.children[0]).0 && IsFilter(env, f1) && !f1.expressions[0].ValueExpr?
    requires f1.expressions[0] == RewriteExpr(env, o.children[0].expressions[0]).0
    requires ExpressionPass(env, o.children[0]).1 == RewriteExpr(env, o.children[0].expressions[0]).1
    requires RowsBelow(env, f1) == RowsBelow(env, o.children[0])
    requires f1.children == o.children[0].children
    requires RulesAt(env, o) == (o.(children := [f1]), ExpressionPass(env, o.children[0]).1)
    ensures var (o', c) := RewriteOnce(env, o);
            && IsPlanned(env, o') && o'.kind == o.kind
            && Meaning(env, o') == Meaning(env, o)
            && IsCleaned(env, o')
            && (o'.children != [] ==> o.children != [] && TablesOf(SourceOf(o')) == TablesOf(SourceOf(o)))
            && KeepsHanded(o, o')
            && (!c ==> IsNormal(env, o'))
  {
    var e := o.children[0].expressions[0];
    TwoPassesClean(env, e);
    FilterRound(env, f1);
    OnceOne(env, f1);
    var (f', c') := RewriteOnce(env, f1);
    assert RewriteOnce(env, o) == (o.(children := [f']), RulesAt(env, o).1 || c');
    assert Meaning(env, o.(children := [f'])) == Meaning(env, o);
    if !RewriteOnce(env, o).1 {
      QuietPass(env, e);
      CleanStays(env, f1.expressions[0]);
    }
  }

  /** A pass that reports nothing and does not end in a constant leaves a clean filter. */
  lemma QuietPass(env: Env, e: Expr)
    requires IsFlat(env, e) && !RewriteExpr(env, e).1 && !RewriteExpr(env, e).0.ValueExpr?
    ensures IsClean(env, RewriteExpr(env, e).0)
  {
    if IsLeaf(e) {
      RewriteLeaf(env, e);
    } else if AllComparisons(e.children) {
      ScanComparisons([], e.children);
      assert [] + e.children == e.children;
      FoldChildren(env, e.children);
    } else {
      RewriteFolded(env, e);
    }
  }

  // ---------- the whole loop ----------

  /** The loop ends in a planned operator in normal form that denotes the meaning of the plan it
      started from. */
  lemma {:induction false} LoopMeaning(env: Env, o: LogicalOper)
    requires IsPlanned(env, o)
    ensures var o' := RewriteLoop(env, o);
            && IsPlanned(env, o') && o'.kind == o.kind
            && Denote(env, o') == Meaning(env, o)
            && IsNormal(env, o')
            && (o'.children != [] ==> o.children != [] && TablesOf(SourceOf(o')) == TablesOf(SourceOf(o)))
            && KeepsHanded(o, o')
    decreases OperSize(o)
  {
    Round(env, o);
    var (o', c) := RewriteOnce(env, o);
    if c {
      LoopMeaning(env, o');
    } else if o'.children != [] && o'.children[0].kind.Predicate? {
      OutcomeFilterHolds(env, o'.children[0].expressions[0], Denote(env, o'.children[0].children[0]));
    }
  }

  predicate Installs(o: LogicalOper, o': LogicalOper) { HandedTo(o') != [] && HandedTo(o') != HandedTo(o) }

  /** The rounds of the loop in which a scan is given predicates. */
  function Installations(env: Env, o: LogicalOper): nat
    decreases OperSize(o)
  {
    var (o', c) := RewriteOnce(env, o);
    (if Installs(o, o') then 1 else 0) + if c then Installations(env, o') else 0
  }

  /** Over the whole loop a scan is given predicates at most once, and never when it holds some:
      so `set_predicates` never drops a filter. */
  lemma {:induction false} InstalledOnce(env: Env, o: LogicalOper)
    requires IsPlanned(env, o)
    ensures Installations(env, o) <= if HandedTo(o) == [] && o.children != [] then 1 else 0
    decreases OperSize(o)
  {
    Round(env, o);
    var (o', c) := RewriteOnce(env, o);
    if c {
      InstalledOnce(env, o');
    }
  }

  // ---------- against the plan as written ----------

  lemma {:induction false} OutcomeFilterEmpty(env: Env, e: Expr, ts: seq<Tuple>)
    ensures OutcomeFilter(env, e, ts) == [] <==> forall i :: 0 <= i < |ts| ==> !Outcome(env, e, ts[i])
  {
    if ts != [] { OutcomeFilterEmpty(env, e, ts[1..]); }
  }

  lemma {:induction false} FilterAgrees(env: Env, e: Expr, ts: seq<Tuple>)
    requires forall i :: 0 <= i < |ts| ==> (Outcome(env, e, ts[i]) <==> Holds(env, e, ts[i]))
    ensures OutcomeFilter(env, e, ts) == Filter(env, e, ts)
  {
    if ts != [] { FilterAgrees(env, e, ts[1..]); }
  }

  lemma {:induction false} FilterNone(env: Env, e: Expr, ts: seq<Tuple>)
    requires forall i :: 0 <= i < |ts| ==> !Holds(env, e, ts[i])
    ensures Filter(env, e, ts) == []
  {
    if ts != [] { FilterNone(env, e, ts[1..]); }
  }

  predicate SomeHolds(env: Env, e: Expr, ts: seq<Tuple>) {
    exists i :: 0 <= i < |ts| && Holds(env, e, ts[i])
  }

  lemma FalseHoldsNowhere(env: Env, cs: seq<Expr>, t: Tuple)
    requires AllComparisons(cs)
    ensures HasFalse(env, cs) ==> !Holds(env, ConjunctionExpr(AND, cs), t)
  {
    if HasFalse(env, cs) {
      AndHolds(env, cs, t);
      var k :| 0 <= k < |cs| && Constant(env, cs[k]) == Some(false);
      ConstantHolds(env, cs[k], t);
    }
  }

  /** On a list of tuples the outcomes are the filter's exactly when the AND holds no false constant,
      or none of them passes the child that replaces it; with a false constant nothing is asked for. */
  lemma FiltersAgreeExactly(env: Env, cs: seq<Expr>, ts: seq<Tuple>)
    requires AllComparisons(cs)
    ensures var e := ConjunctionExpr(AND, cs);
            && (OutcomeFilter(env, e, ts) == Filter(env, e, ts) <==>
                !(HasFalse(env, cs) && SomeHolds(env, Replacement(env, cs).value, ts)))
            && (HasFalse(env, cs) ==> Filter(env, e, ts) == [])
  {
    var e := ConjunctionExpr(AND, cs);
    forall i | 0 <= i < |ts|
      ensures (Outcome(env, e, ts[i]) <==> Holds(env, e, ts[i])) <==>
              !(HasFalse(env, cs) && Holds(env, Replacement(env, cs).value, ts[i]))
      ensures HasFalse(env, cs) ==> !Holds(env, e, ts[i])
    {
      OutcomeExact(env, cs, ts[i]);
      FalseHoldsNowhere(env, cs, ts[i]);
    }
    if HasFalse(env, cs) {
      FilterNone(env, e, ts);
      OutcomeFilterEmpty(env, e, ts);
      var f := Replacement(env, cs).value;
      if SomeHolds(env, f, ts) {
        var i :| 0 <= i < |ts| && Holds(env, f, ts[i]);
        assert Outcome(env, e, ts[i]);
      } else {
        assert forall i :: 0 <= i < |ts| ==> !Outcome(env, e, ts[i]);
      }
    } else {
      FilterAgrees(env, e, ts);
    }
  }

  /** Rewriting keeps what a planned filter denotes exactly when the filter holds no false
      constant, or no tuple passes the child that replaces it. */
  lemma RewriteExact(env: Env, o: LogicalOper)
    requires IsPlanned(env, o) && |o.children| == 1 && IsFilter(env, o.children[0])
    requires o.children[0].expressions[0].ConjunctionExpr? && AllComparisons(o.children[0].expressions[0].children)
    ensures var cs := o.children[0].expressions[0].children;
            var ts := Denote(env, o.children[0].children[0]);
            Denote(env, RewriteLoop(env, o)) == Denote(env, o) <==>
            !(HasFalse(env, cs) && SomeHolds(env, Replacement(env, cs).value, ts))
    ensures HasFalse(env, o.children[0].expressions[0].children) ==> Denote(env, o) == []
  {
    LoopMeaning(env, o);
    var e := o.children[0].expressions[0];
    var ts := Denote(env, o.children[0].children[0]);
    FinishedFilters(env, o);
    assert e == ConjunctionExpr(AND, e.children);
    FiltersAgreeExactly(env, e.children, ts);
    if HasFalse(env, e.children) {
      assert |Denote(env, RewriteLoop(env, o))| == |OutcomeFilter(env, e, ts)|;
    }
  }

  lemma FinishedFilters(env: Env, o: LogicalOper)
    requires IsPlanned(env, o) && |o.children| == 1 && IsFilter(env, o.children[0])
    ensures var e, ts := o.children[0].expressions[0], Denote(env, o.children[0].children[0]);
            && Meaning(env, o) == Finish(o.kind, OutcomeFilter(env, e, ts))
            && Denote(env, o) == Finish(o.kind, Filter(env, e, ts))
  {
    var e, ts := o.children[0].expressions[0], Denote(env, o.children[0].children[0]);
    assert Denote(env, o.children[0]) == Filter(env, e, ts);
  }

  /** The guard that can be read off the WHERE clause: no comparison that needs a tuple before
      the first comparison that is false for every tuple. Then the loop keeps the plan's rows on
      every database. */
  lemma RewritePreserves(env: Env, o: LogicalOper)
    requires IsPlanned(env, o) && |o.children| == 1 && IsFilter(env, o.children[0])
    requires o.children[0].expressions[0].ConjunctionExpr? && AllComparisons(o.children[0].expressions[0].children)
    requires FalseComesFirst(env, o.children[0].expressions[0].children)
    ensures Denote(env, RewriteLoop(env, o)) == Denote(env, o)
  {
    RewriteExact(env, o);
    var cs := o.children[0].expressions[0].children;
    var ts := Denote(env, o.children[0].children[0]);
    if HasFalse(env, cs) {
      GuardIsFirst(env, cs);
      ReplacementIn(env, cs);
      forall i | 0 <= i < |ts| ensures !Holds(env, Replacement(env, cs).value, ts[i]) {
        ConstantHolds(env, Replacement(env, cs).value, ts[i]);
      }
    }
  }
}
