/** From statement to rows: planning, rewriting, lowering and draining a SELECT gives the rows the
    statement asks for. */
module EndToEnd {

  import opened Expressions
  import opened ExprRewriting
  import opened LogicalPlans
  import opened RewriteTheorems
  import opened Planner
  import opened PhysicalPlans
  import opened Permutations
  import Optimizer
  import Volcano
  import Generator

  // ---------- expressions that cannot fail ----------

  /** Only fields of `tables`, literals, comparisons with an operator, and conjunctions. */
  predicate IsSimple(tables: seq<Table>, e: Expr)
    decreases e, 0
  {
    match e
    case FieldExpr(f) => HasColumn(tables, CellSpec(f.table, f.name))
    case ValueExpr(_) => true
    case CastExpr(_, _) => false
    case ComparisonExpr(comp, l, r) => comp != NO_OP && IsSimple(tables, l) && IsSimple(tables, r)
    case ConjunctionExpr(_, cs) => AllSimple(tables, cs)
  }

  predicate AllSimple(tables: seq<Table>, es: seq<Expr>)
    decreases es, 1
  {
    forall i :: 0 <= i < |es| ==> IsSimple(tables, es[i])
  }

  /** The tuple has a cell for every column of `tables`. */
  ghost predicate Covers(tables: seq<Table>, t: Tuple) {
    forall spec :: HasColumn(tables, spec) ==> FindCell(t, spec).Ok?
  }

  lemma {:induction false} SimpleEvaluates(env: Env, tables: seq<Table>, e: Expr, t: Tuple)
    requires IsSimple(tables, e) && Covers(tables, t)
    ensures Eval(env, e, t).Ok?
    decreases e, 0
  {
    match e
    case FieldExpr(f) =>
    case ValueExpr(_) =>
    case ComparisonExpr(_, l, r) =>
      SimpleEvaluates(env, tables, l, t);
      SimpleEvaluates(env, tables, r, t);
    case ConjunctionExpr(conj, cs) =>
      SimpleChildren(env, tables, conj, cs, t);
  }

  lemma {:induction false} SimpleChildren(env: Env, tables: seq<Table>, conj: ConjunctionType, es: seq<Expr>, t: Tuple)
    requires AllSimple(tables, es) && Covers(tables, t)
    ensures EvalChildren(env, conj, es, t).Ok?
    decreases es, 1
  {
    if es != [] {
      SimpleEvaluates(env, tables, es[0], t);
      SimpleChildren(env, tables, conj, es[1..], t);
    }
  }

  // ---------- rewriting brings in nothing new ----------

  lemma {:induction false} RewriteSimple(env: Env, tables: seq<Table>, e: Expr)
    requires IsSimple(tables, e)
    ensures IsSimple(tables, RewriteExpr(env, e).0)
    decreases Size(e), 0
  {
    var (e1, c1) := ComparisonRule(env, e);
    assert IsSimple(tables, e1);
    var (e2, c2) := ConjunctionRule(e1);
    assert IsSimple(tables, e2) by {
      if e1.ConjunctionExpr? {
        ScanIn(e1.conj, [], e1.children);
        assert [] + e1.children == e1.children;
        forall c | c in e1.children ensures IsSimple(tables, c) {
          var i :| 0 <= i < |e1.children| && e1.children[i] == c;
        }
      }
    }
    if !c1 && !c2 {
      match e2
      case FieldExpr(_) =>
      case ValueExpr(_) =>
      case ComparisonExpr(_, l, r) =>
        RewriteSimple(env, tables, l);
        RewriteSimple(env, tables, r);
      case ConjunctionExpr(_, cs) =>
        RewriteAllSimple(env, tables, cs);
    }
  }

  lemma {:induction false} RewriteAllSimple(env: Env, tables: seq<Table>, es: seq<Expr>)
    requires AllSimple(tables, es)
    ensures AllSimple(tables, RewriteExprs(env, es).0)
    decreases SizeAll(es), 1
  {
    if es != [] {
      RewriteSimple(env, tables, es[0]);
      RewriteAllSimple(env, tables, es[1..]);
    }
  }

  lemma {:induction false} SplitSimple(tables: seq<Table>, e: Expr)
    requires IsSimple(tables, e)
    ensures SplitPushdown(e).0.Some? ==> IsSimple(tables, SplitPushdown(e).0.value)
    ensures AllSimple(tables, SplitPushdown(e).1)
    decreases e, 0
  {
    if e.ConjunctionExpr? && e.conj.AND? {
      SplitAllSimple(tables, e.children);
    }
  }

  lemma {:induction false} SplitAllSimple(tables: seq<Table>, es: seq<Expr>)
    requires AllSimple(tables, es)
    ensures AllSimple(tables, SplitAll(es).0) && AllSimple(tables, SplitAll(es).1)
    decreases es, 1
  {
    if es != [] {
      SplitSimple(tables, es[0]);
      SplitAllSimple(tables, es[1..]);
    }
  }

  /** Every expression and every handed-down predicate of the plan is simple. */
  predicate IsScoped(tables: seq<Table>, o: LogicalOper)
    decreases o, 0
  {
    && AllSimple(tables, o.expressions)
    && (o.kind.TableGet? ==> AllSimple(tables, o.kind.predicates))
    && AllScoped(tables, o.children)
  }

  predicate AllScoped(tables: seq<Table>, os: seq<LogicalOper>)
    decreases os, 1
  {
    forall i :: 0 <= i < |os| ==> IsScoped(tables, os[i])
  }

  lemma {:induction false} PassScoped(env: Env, tables: seq<Table>, o: LogicalOper)
    requires IsScoped(tables, o)
    ensures IsScoped(tables, ExpressionPass(env, o).0)
    decreases o, 0
  {
    RewriteAllSimple(env, tables, o.expressions);
    PassAllScoped(env, tables, o.children);
  }

  lemma {:induction false} PassAllScoped(env: Env, tables: seq<Table>, os: seq<LogicalOper>)
    requires AllScoped(tables, os)
    ensures AllScoped(tables, ExpressionPassAll(env, os).0)
    decreases os, 1
  {
    if os != [] {
      PassScoped(env, tables, os[0]);
      PassAllScoped(env, tables, os[1..]);
    }
  }

  lemma ScopedChild(tables: seq<Table>, o: LogicalOper, i: nat)
    requires IsScoped(tables, o) && i < |o.children|
    ensures IsScoped(tables, o.children[i])
  {
    assert AllScoped(tables, o.children);
  }

  lemma RulesScoped(env: Env, tables: seq<Table>, o: LogicalOper)
    requires IsScoped(tables, o)
    ensures IsScoped(tables, RulesAt(env, o).0)
  {
    PassScoped(env, tables, o);
    var o1 := ExpressionPass(env, o).0;
    if |o1.children| == 1 { ScopedChild(tables, o1, 0); }
    var o2 := PredicateRule(env, o1).0;
    assert IsScoped(tables, o2);
    var o3 := PushdownRule(o2).0;
    if o2.kind.Predicate? && |o2.children| == 1 && o2.children[0].kind.TableGet? && |o2.expressions| == 1 {
      SplitSimple(tables, o2.expressions[0]);
      ScopedChild(tables, o2, 0);
      assert IsScoped(tables, o3.children[0]);
      assert |o3.children| == 1;
    }
  }

  lemma {:induction false} OnceScoped(env: Env, tables: seq<Table>, o: LogicalOper)
    requires IsScoped(tables, o)
    ensures IsScoped(tables, RewriteOnce(env, o).0)
    decreases OperSize(o), 0
  {
    RulesScoped(env, tables, o);
    OnceAllScoped(env, tables, RulesAt(env, o).0.children);
  }

  lemma {:induction false} OnceAllScoped(env: Env, tables: seq<Table>, os: seq<LogicalOper>)
    requires AllScoped(tables, os)
    ensures AllScoped(tables, RewriteOnceAll(env, os).0)
    decreases OperSizeAll(os), 1
  {
    if os != [] {
      OnceScoped(env, tables, os[0]);
      OnceAllScoped(env, tables, os[1..]);
    }
  }

  lemma {:induction false} LoopScoped(env: Env, tables: seq<Table>, o: LogicalOper)
    requires IsScoped(tables, o)
    ensures IsScoped(tables, RewriteLoop(env, o))
    decreases OperSize(o)
  {
    OnceScoped(env, tables, o);
    if RewriteOnce(env, o).1 { LoopScoped(env, tables, RewriteOnce(env, o).0); }
  }

  // ---------- scans ----------

  /** The index scanner of an indexed column gives, once each, exactly the records whose cell in
      that column compares equal to the key. Comparing equal does not depend on the order. */
  ghost predicate ExactIndex(env: Env) {
    && (forall x, y :: env.compare(x, y) == 0 ==> env.compare(y, x) == 0)
    && forall t: Table, c: string, key: Cell :: c in t.indexed && c in t.fields ==>
         var rids := env.indexScan(t, c, key);
         && Distinct(rids)
         && (forall r :: r in rids <==> 0 <= r < |t.rows| && CellEquals(env, t, r, c, key))
  }

  /** No access to storage fails. */
  ghost predicate StorageWorks(env: Env) {
    forall a :: env.storage(a) == SUCCESS
  }

  /** Accesses may fail, but none that fails does so with the code that ends a scan. */
  ghost predicate FailuresShow(env: Env) {
    forall a :: env.storage(a) != RECORD_EOF
  }

  /** What the client hears of an access that fails: its code, but for the index scanner that could
      not be made. */
  function CodeOf(env: Env, a: Access): RC {
    if a.OpenIndex? then INTERNAL else env.storage(a)
  }

  /** The code of some access that fails. */
  ghost predicate IsFailure(env: Env, rc: RC) {
    rc != RECORD_EOF && exists a :: env.storage(a) != SUCCESS && rc == CodeOf(env, a)
  }

  /** `s` is the whole stream, or the start of it and then the code of an access that fails. */
  ghost predicate Cuts(env: Env, s: Stream, whole: Stream) {
    s == whole || (IsFailure(env, s.end) && s.items <= whole.items)
  }

  /** `s` is the whole stream up to a failure of storage. */
  ghost predicate UpToFailure(env: Env, s: Stream, whole: Stream) {
    Cuts(env, s, whole) && (StorageWorks(env) ==> s == whole)
  }

  lemma PrependCuts(env: Env, ts: seq<Tuple>, s: Stream, whole: Stream)
    requires Cuts(env, s, whole)
    ensures Cuts(env, Prepend(ts, s), Prepend(ts, whole))
  {
  }

  predicate CellEquals(env: Env, t: Table, r: nat, column: string, key: Cell)
    requires r < |t.rows|
  {
    var c := FindCell(RowTuple(t, t.rows[r]), CellSpec(t.name, column));
    c.Ok? && env.compare(c.value, key) == 0
  }

  lemma {:induction false} CheckHolds(env: Env, tables: seq<Table>, predicates: seq<Expr>, t: Tuple)
    requires AllSimple(tables, predicates) && Covers(tables, t)
    ensures Check(env, predicates, t) == Ok(AllHold(env, predicates, t))
  {
    if predicates != [] {
      SimpleEvaluates(env, tables, predicates[0], t);
      CheckHolds(env, tables, predicates[1..], t);
      assert predicates == [predicates[0]] + predicates[1..];
      AllHoldConcat(env, [predicates[0]], predicates[1..], t);
      assert AllHold(env, [predicates[0]], t) <==> Holds(env, [predicates[0]][0], t);
    }
  }

  lemma {:induction false} RecordsScanned(env: Env, table: Table, rows: seq<Record>, predicates: seq<Expr>)
    requires FailuresShow(env) && AllSimple([table], predicates)
    ensures UpToFailure(env, RecordStream(env, table, rows, predicates),
                        Stream(ScanTable(env, table, rows, predicates), RECORD_EOF))
  {
    if rows != [] && env.storage(ReadRecord(table, |rows|)) == SUCCESS {
      RowCovers(table, rows[0]);
      var t := RowTuple(table, rows[0]);
      CheckHolds(env, [table], predicates, t);
      RecordsScanned(env, table, rows[1..], predicates);
      PrependCuts(env, if AllHold(env, predicates, t) then [t] else [], RecordStream(env, table, rows[1..], predicates),
                  Stream(ScanTable(env, table, rows[1..], predicates), RECORD_EOF));
    }
  }

  lemma RowCovers(table: Table, r: Record)
    ensures Covers([table], RowTuple(table, r))
  {
    forall spec | HasColumn([table], spec) ensures FindCell(RowTuple(table, r), spec).Ok? {
      ColumnFound(table.fields, spec.field);
    }
  }

  /** The tuples a scan gives for one position. */
  ghost function At(env: Env, table: Table, predicates: seq<Expr>): nat -> seq<Tuple> {
    (r: nat) =>
      if r < |table.rows| && AllHold(env, predicates, RowTuple(table, table.rows[r]))
      then [RowTuple(table, table.rows[r])] else []
  }

  lemma {:induction false} ScanByPosition(env: Env, table: Table, predicates: seq<Expr>, n: nat)
    requires n <= |table.rows|
    ensures ScanTable(env, table, table.rows[..n], predicates) == FlatMap(At(env, table, predicates), UpTo(n))
  {
    if n > 0 {
      ScanByPosition(env, table, predicates, n - 1);
      assert table.rows[..n] == table.rows[..n - 1] + [table.rows[n - 1]];
      ScanConcat(env, table, table.rows[..n - 1], [table.rows[n - 1]], predicates);
      var last: seq<nat> := [n - 1];
      assert UpTo(n) == UpTo(n - 1) + last;
      FlatMapConcat(At(env, table, predicates), UpTo(n - 1), last);
      ScanOne(env, table, predicates, n - 1);
    }
  }

  lemma ScanOne(env: Env, table: Table, predicates: seq<Expr>, r: nat)
    requires r < |table.rows|
    ensures ScanTable(env, table, [table.rows[r]], predicates) == FlatMap(At(env, table, predicates), [r])
  {
    var f, one := At(env, table, predicates), [r];
    assert one[1..] == [] && [table.rows[r]][1..] == [];
    assert FlatMap(f, one) == f(r) + FlatMap(f, []);
  }

  lemma {:induction false} ScanConcat(env: Env, table: Table, a: seq<Record>, b: seq<Record>, predicates: seq<Expr>)
    ensures ScanTable(env, table, a + b, predicates)
         == ScanTable(env, table, a, predicates) + ScanTable(env, table, b, predicates)
  {
    if a == [] {
      assert a + b == b;
    } else {
      assert (a + b)[1..] == a[1..] + b;
      ScanConcat(env, table, a[1..], b, predicates);
    }
  }

  lemma {:induction false} EntriesScanned(env: Env, table: Table, column: string, key: Cell, rids: seq<nat>, predicates: seq<Expr>)
    requires FailuresShow(env) && AllSimple([table], predicates)
    requires forall r :: r in rids ==> r < |table.rows|
    ensures UpToFailure(env, EntryStream(env, table, column, key, rids, predicates),
                        Stream(FlatMap(At(env, table, predicates), rids), RECORD_EOF))
  {
    if rids != [] {
      assert rids[0] in rids;
      var row := table.rows[rids[0]];
      RowCovers(table, row);
      CheckHolds(env, [table], predicates, RowTuple(table, row));
      assert forall r :: r in rids[1..] ==> r in rids;
      EntriesScanned(env, table, column, key, rids[1..], predicates);
      var f := At(env, table, predicates);
      assert FlatMap(f, rids) == f(rids[0]) + FlatMap(f, rids[1..]);
      PrependCuts(env, f(rids[0]), EntryStream(env, table, column, key, rids[1..], predicates),
                  Stream(FlatMap(f, rids[1..]), RECORD_EOF));
    }
  }

  /** The chosen column and key come from the first predicate that has an index. */
  lemma {:induction false} ChosenKey(table: Table, predicates: seq<Expr>) returns (i: nat)
    requires ChooseIndex(table, predicates).Some?
    ensures ChooseIndex(table, predicates).value.0 in table.indexed
    ensures i < |predicates| && IndexKey(predicates[i]) == ChooseIndex(table, predicates)
    ensures forall j :: 0 <= j < i && IndexKey(predicates[j]).Some? ==> IndexKey(predicates[j]).value.0 !in table.indexed
  {
    assert predicates != [];
    var k := IndexKey(predicates[0]);
    if k.Some? && k.value.0 in table.indexed {
      i := 0;
    } else {
      var j := ChosenKey(table, predicates[1..]);
      i := j + 1;
    }
  }

  /** A record that passes an equality with a literal is one the index scanner gives. */
  lemma PassesKey(env: Env, table: Table, e: Expr, r: nat)
    requires ExactIndex(env) && r < |table.rows| && IndexKey(e).Some?
    requires IsSimple([table], e) && Holds(env, e, RowTuple(table, table.rows[r]))
    ensures IndexKey(e).value.0 in table.fields
    ensures CellEquals(env, table, r, IndexKey(e).value.0, IndexKey(e).value.1)
  {
    var t := RowTuple(table, table.rows[r]);
    RowCovers(table, table.rows[r]);
    SimpleEvaluates(env, [table], e.left, t);
    SimpleEvaluates(env, [table], e.right, t);
    var l, rt := Eval(env, e.left, t), Eval(env, e.right, t);
    assert env.compare(l.value, rt.value) == 0;
    var f := if e.left.FieldExpr? && e.right.ValueExpr? then e.left.field else e.right.field;
    assert HasColumn([table], CellSpec(f.table, f.name));
    assert f.table == table.name;
  }

  lemma KeyColumn(table: Table, e: Expr)
    requires IndexKey(e).Some? && IsSimple([table], e)
    ensures IndexKey(e).value.0 in table.fields
  {
    var f := if e.left.FieldExpr? && e.right.ValueExpr? then e.left.field else e.right.field;
    assert HasColumn([table], CellSpec(f.table, f.name));
  }

  /** An index scan gives the tuples of a table scan in some order, up to a failure of storage. */
  lemma IndexRefinesTableScan(env: Env, table: Table, predicates: seq<Expr>) returns (whole: Stream)
    requires ExactIndex(env) && FailuresShow(env) && AllSimple([table], predicates)
    requires ChooseIndex(table, predicates).Some?
    ensures var k := ChooseIndex(table, predicates).value;
            UpToFailure(env, EntryStream(env, table, k.0, k.1, env.indexScan(table, k.0, k.1), predicates), whole)
    ensures whole.end == RECORD_EOF && multiset(whole.items) == multiset(ScanTable(env, table, table.rows, predicates))
  {
    var k := ChooseIndex(table, predicates).value;
    var i := ChosenKey(table, predicates);
    KeyColumn(table, predicates[i]);
    var rids := env.indexScan(table, k.0, k.1);
    EntriesScanned(env, table, k.0, k.1, rids, predicates);
    var f := At(env, table, predicates);
    var n := |table.rows|;
    assert table.rows[..n] == table.rows;
    ScanByPosition(env, table, predicates, n);
    forall r: nat | r < n && r !in rids ensures f(r) == [] {
      if AllHold(env, predicates, RowTuple(table, table.rows[r])) {
        PassesKey(env, table, predicates[i], r);
      }
    }
    VisitSome(f, n, rids);
    whole := Stream(FlatMap(f, rids), RECORD_EOF);
  }

  // ---------- the stream of a source ----------

  /** No table operator of the plan finds an index to use. */
  predicate NoIndex(o: LogicalOper)
    decreases o
  {
    && (o.kind.TableGet? ==> ChooseIndex(o.kind.table, o.kind.predicates).None?)
    && (forall i :: 0 <= i < |o.children| ==> NoIndex(o.children[i]))
  }

  /** The stream gives the tuples in some order, and in that very order without an index. */
  ghost predicate Gives(s: Stream, ts: seq<Tuple>, sameOrder: bool) {
    s.end == RECORD_EOF && multiset(s.items) == multiset(ts) && (sameOrder ==> s.items == ts)
  }

  lemma TableGives(env: Env, o: LogicalOper) returns (whole: Stream)
    requires ExactIndex(env) && FailuresShow(env) && o.kind.TableGet? && AllSimple([o.kind.table], o.kind.predicates)
    ensures WellLowered(env, LogicalOper(o.kind, [], []), whole)
  {
    var table, predicates := o.kind.table, o.kind.predicates;
    if ChooseIndex(table, predicates).Some? {
      whole := IndexRefinesTableScan(env, table, predicates);
    } else {
      RecordsScanned(env, table, table.rows, predicates);
      whole := Stream(ScanTable(env, table, table.rows, predicates), RECORD_EOF);
    }
  }

  lemma {:induction false} ProductIsFlatMap(ls: seq<Tuple>, rs: seq<Tuple>)
    ensures Product(ls, rs) == FlatMap((l: Tuple) => Pair(l, rs), ls)
  {
    if ls != [] { ProductIsFlatMap(ls[1..], rs); }
  }

  lemma {:induction false} PairIsFlatMap(l: Tuple, rs: seq<Tuple>)
    ensures Pair(l, rs) == FlatMap((r: Tuple) => [JoinedTuple(l, r)], rs)
  {
    if rs != [] { PairIsFlatMap(l, rs[1..]); }
  }

  lemma ProductPermutes(ls: seq<Tuple>, rs: seq<Tuple>, ls': seq<Tuple>, rs': seq<Tuple>)
    requires multiset(ls) == multiset(ls') && multiset(rs) == multiset(rs')
    ensures multiset(Product(ls, rs)) == multiset(Product(ls', rs'))
  {
    var f, g := (l: Tuple) => Pair(l, rs), (l: Tuple) => Pair(l, rs');
    ProductIsFlatMap(ls, rs);
    ProductIsFlatMap(ls', rs');
    forall l ensures multiset(f(l)) == multiset(g(l)) {
      PairIsFlatMap(l, rs);
      PairIsFlatMap(l, rs');
      FlatMapPermutes((r: Tuple) => [JoinedTuple(l, r)], rs, rs');
    }
    FlatMapPermutes(f, ls, ls');
    FlatMapPointwise(f, g, ls');
  }

  lemma {:induction false} JoinGives(ls: seq<Tuple>, rs: seq<Tuple>)
    ensures JoinStream(Stream(ls, RECORD_EOF), Stream(rs, RECORD_EOF)) == Stream(Product(ls, rs), RECORD_EOF)
  {
    if rs == [] {
      ProductEmpty(ls);
    } else if ls != [] {
      JoinGives(ls[1..], rs);
    }
  }

  lemma {:induction false} ProductEmpty(ls: seq<Tuple>)
    ensures Product(ls, []) == []
  {
    if ls != [] { ProductEmpty(ls[1..]); }
  }

  /** The products of streams that give their tuples give the product. */
  lemma ProductGives(ls: Stream, rs: Stream, a: seq<Tuple>, b: seq<Tuple>, left: bool, right: bool)
    requires Gives(ls, a, left) && Gives(rs, b, right)
    ensures Gives(JoinStream(ls, rs), Product(a, b), left && right)
  {
    assert ls == Stream(ls.items, RECORD_EOF) && rs == Stream(rs.items, RECORD_EOF);
    JoinGives(ls.items, rs.items);
    ProductPermutes(ls.items, rs.items, a, b);
  }

  lemma {:induction false} PairPrefix(l: Tuple, a: seq<Tuple>, b: seq<Tuple>)
    requires a <= b
    ensures Pair(l, a) <= Pair(l, b)
  {
    if a != [] {
      assert a[1..] <= b[1..];
      PairPrefix(l, a[1..], b[1..]);
    }
  }

  /** A join of streams cut short is the join cut short. */
  lemma {:induction false} JoinCuts(env: Env, ls: Stream, rs: Stream, a: Stream, b: Stream)
    requires Cuts(env, ls, a) && Cuts(env, rs, b) && a.end == b.end == RECORD_EOF && ls.end != SUCCESS && rs.end != SUCCESS
    ensures Cuts(env, JoinStream(ls, rs), JoinStream(a, b))
    decreases |ls.items|
  {
    if ls.items != [] && rs.items != [] {
      var l := ls.items[0];
      var ls', a' := Stream(ls.items[1..], ls.end), Stream(a.items[1..], a.end);
      assert a.items[0] == l && Cuts(env, ls', a');
      PairPrefix(l, rs.items, b.items);
      if rs.end == RECORD_EOF {
        JoinCuts(env, ls', rs, a', b);
        PrependCuts(env, Pair(l, rs.items), JoinStream(ls', rs), JoinStream(a', b));
      }
    }
  }

  /** Lowering goes well, and opening and draining gives what the operator denotes up to a failure
      of storage. */
  ghost predicate WellLowered(env: Env, o: LogicalOper, whole: Stream) {
    && IsLowerable(o) && Lower(o).Ok? && Gives(whole, Denote(env, o), NoIndex(o))
    && UpToFailure(env, Opened(env, Lower(o).value), whole)
  }

  lemma JoinLowers(env: Env, o: LogicalOper)
    requires o.kind.Join? && |o.children| == 2 && IsLowerable(o.children[0]) && IsLowerable(o.children[1])
    requires Lower(o.children[0]).Ok? && Lower(o.children[1]).Ok?
    ensures IsLowerable(o) && Lower(o).Ok?
    ensures Opened(env, Lower(o).value) ==
            JoinStream(Opened(env, Lower(o.children[0]).value), Opened(env, Lower(o.children[1]).value))
  {
  }

  lemma JoinWellLowered(env: Env, o: LogicalOper, ls: Stream, rs: Stream)
    requires o.kind.Join? && |o.children| == 2 && WellLowered(env, o.children[0], ls) && WellLowered(env, o.children[1], rs)
    ensures WellLowered(env, o, JoinStream(ls, rs))
  {
    var l, r := o.children[0], o.children[1];
    JoinLowers(env, o);
    JoinCuts(env, Opened(env, Lower(l).value), Opened(env, Lower(r).value), ls, rs);
    ProductGives(ls, rs, Denote(env, l), Denote(env, r), NoIndex(l), NoIndex(r));
  }

  /** A lowered source gives what the source denotes. */
  lemma {:induction false} SourceGives(env: Env, o: LogicalOper) returns (whole: Stream)
    requires ExactIndex(env) && FailuresShow(env) && IsSource(o)
    requires o.kind.TableGet? ==> AllSimple([o.kind.table], o.kind.predicates)
    ensures WellLowered(env, o, whole)
    decreases o
  {
    if o.kind.TableGet? {
      whole := TableGives(env, o);
      assert o == LogicalOper(o.kind, [], []);
    } else {
      var ls := SourceGives(env, o.children[0]);
      var rs := SourceGives(env, o.children[1]);
      JoinWellLowered(env, o, ls, rs);
      whole := JoinStream(ls, rs);
    }
  }

  // ---------- tuples of a source cover its tables ----------

  lemma {:induction false} ProductCovers(ls: seq<Tuple>, rs: seq<Tuple>, a: seq<Table>, b: seq<Table>)
    requires forall t :: t in ls ==> Covers(a, t)
    requires forall t :: t in rs ==> Covers(b, t)
    ensures forall t :: t in Product(ls, rs) ==> Covers(a + b, t)
  {
    if ls != [] {
      ProductCovers(ls[1..], rs, a, b);
      PairAt(ls[0], rs);
      forall t | t in Pair(ls[0], rs) ensures Covers(a + b, t) {
        var i :| 0 <= i < |rs| && Pair(ls[0], rs)[i] == t;
        JoinedCovers(ls[0], rs[i], a, b);
      }
    }
  }

  lemma JoinedCovers(l: Tuple, r: Tuple, a: seq<Table>, b: seq<Table>)
    requires Covers(a, l) && Covers(b, r)
    ensures Covers(a + b, JoinedTuple(l, r))
  {
    forall spec | HasColumn(a + b, spec) ensures FindCell(JoinedTuple(l, r), spec).Ok? {
      var k :| 0 <= k < |a + b| && (a + b)[k].name == spec.table && spec.field in (a + b)[k].fields;
      if k < |a| {
        assert HasColumn(a, spec);
      } else {
        assert b[k - |a|] == (a + b)[k];
        assert HasColumn(b, spec);
      }
    }
  }

  lemma {:induction false} ScanRows(env: Env, table: Table, rows: seq<Record>, predicates: seq<Expr>)
    ensures forall t :: t in ScanTable(env, table, rows, predicates) ==> Covers([table], t)
  {
    if rows != [] {
      RowCovers(table, rows[0]);
      ScanRows(env, table, rows[1..], predicates);
    }
  }

  lemma {:induction false} SourceCovers(env: Env, o: LogicalOper)
    requires IsSource(o)
    ensures forall t :: t in Denote(env, o) ==> Covers(TablesOf(o), t)
    decreases o
  {
    if o.kind.TableGet? {
      ScanRows(env, o.kind.table, o.kind.table.rows, o.kind.predicates);
    } else {
      SourceCovers(env, o.children[0]);
      SourceCovers(env, o.children[1]);
      ProductCovers(Denote(env, o.children[0]), Denote(env, o.children[1]), TablesOf(o.children[0]), TablesOf(o.children[1]));
    }
  }

  // ---------- filters and projections ----------

  lemma {:induction false} FilterGives(env: Env, tables: seq<Table>, e: Expr, ts: seq<Tuple>)
    requires IsSimple(tables, e) && forall t :: t in ts ==> Covers(tables, t)
    ensures FilterStream(env, e, Stream(ts, RECORD_EOF)) == Stream(Filter(env, e, ts), RECORD_EOF)
  {
    if ts != [] {
      assert ts[0] in ts;
      SimpleEvaluates(env, tables, e, ts[0]);
      FilterGives(env, tables, e, ts[1..]);
    }
  }

  lemma {:induction false} FilterIsFlatMap(env: Env, e: Expr, ts: seq<Tuple>)
    ensures Filter(env, e, ts) == FlatMap((t: Tuple) => if Holds(env, e, t) then [t] else [], ts)
  {
    if ts != [] { FilterIsFlatMap(env, e, ts[1..]); }
  }

  lemma FilterPermutes(env: Env, e: Expr, a: seq<Tuple>, b: seq<Tuple>)
    requires multiset(a) == multiset(b)
    ensures multiset(Filter(env, e, a)) == multiset(Filter(env, e, b))
  {
    FilterIsFlatMap(env, e, a);
    FilterIsFlatMap(env, e, b);
    FlatMapPermutes((t: Tuple) => if Holds(env, e, t) then [t] else [], a, b);
  }

  lemma {:induction false} RowsAreFlatMap(specs: seq<CellSpec>, ts: seq<Tuple>)
    ensures RowsOf(Project(specs, ts)) == FlatMap((t: Tuple) => [CellsOf(ProjectTuple(specs, t))], ts)
  {
    if ts != [] {
      RowsAreFlatMap(specs, ts[1..]);
      assert RowsOf(Project(specs, ts)) == [CellsOf(ProjectTuple(specs, ts[0]))] + RowsOf(Project(specs, ts[1..]));
    }
  }

  lemma RowsPermute(specs: seq<CellSpec>, a: seq<Tuple>, b: seq<Tuple>)
    requires multiset(a) == multiset(b)
    ensures multiset(RowsOf(Project(specs, a))) == multiset(RowsOf(Project(specs, b)))
  {
    RowsAreFlatMap(specs, a);
    RowsAreFlatMap(specs, b);
    FlatMapPermutes((t: Tuple) => [CellsOf(ProjectTuple(specs, t))], a, b);
  }

  lemma InBoth(a: seq<Tuple>, b: seq<Tuple>, t: Tuple)
    requires multiset(a) == multiset(b) && t in a
    ensures t in b
  {
    assert t in multiset(a);
    assert t in multiset(b);
  }

  /** What lies under the projection of a rewritten plan gives its rows. */
  lemma BelowGives(env: Env, o: LogicalOper, tables: seq<Table>) returns (whole: Stream)
    requires ExactIndex(env) && FailuresShow(env)
    requires (IsSource(o) && TablesOf(o) == tables) || (IsFilter(env, o) && TablesOf(o.children[0]) == tables)
    requires IsScoped(tables, o)
    ensures WellLowered(env, o, whole)
  {
    if IsSource(o) {
      whole := SourceGives(env, o);
    } else {
      var source, e := o.children[0], o.expressions[0];
      ScopedChild(tables, o, 0);
      assert IsSimple(tables, e);
      var below := SourceGives(env, source);
      SourceCovers(env, source);
      FilteredGives(env, tables, e, below, Denote(env, source), NoIndex(source));
      LoweredFilter(env, o);
      FilterCuts(env, e, Opened(env, Lower(source).value), below);
      whole := FilterStream(env, e, below);
    }
  }

  lemma LoweredFilter(env: Env, o: LogicalOper)
    requires IsFilter(env, o) && IsLowerable(o.children[0]) && Lower(o.children[0]).Ok?
    ensures IsLowerable(o) && Lower(o).Ok?
    ensures Opened(env, Lower(o).value) == FilterStream(env, o.expressions[0], Opened(env, Lower(o.children[0]).value))
    ensures Denote(env, o) == Filter(env, o.expressions[0], Denote(env, o.children[0]))
    ensures NoIndex(o) ==> NoIndex(o.children[0])
  {
    assert ValueType(o.expressions[0]) == BOOLEANS;
    assert Lower(o) == Ok(PhysPlan(PredicateFilter(o.expressions[0]), [Lower(o.children[0]).value]));
  }

  lemma {:induction false} FilterCuts(env: Env, e: Expr, s: Stream, whole: Stream)
    requires Cuts(env, s, whole) && s.end != SUCCESS && whole.end != SUCCESS
    ensures Cuts(env, FilterStream(env, e, s), FilterStream(env, e, whole))
    decreases |s.items|
  {
    if s.items != [] {
      var s', whole' := Stream(s.items[1..], s.end), Stream(whole.items[1..], whole.end);
      assert whole.items[0] == s.items[0] && Cuts(env, s', whole');
      FilterCuts(env, e, s', whole');
    }
  }

  lemma FilteredGives(env: Env, tables: seq<Table>, e: Expr, s: Stream, ts: seq<Tuple>, sameOrder: bool)
    requires Gives(s, ts, sameOrder) && IsSimple(tables, e) && forall t :: t in ts ==> Covers(tables, t)
    ensures Gives(FilterStream(env, e, s), Filter(env, e, ts), sameOrder)
  {
    forall t | t in s.items ensures Covers(tables, t) { InBoth(s.items, ts, t); }
    FilterGives(env, tables, e, s.items);
    FilterPermutes(env, e, s.items, ts);
    assert s == Stream(s.items, RECORD_EOF);
  }

  // ---------- the whole path ----------

  lemma TableScoped(tables: seq<Table>, t: Table, fields: seq<Field>)
    ensures IsScoped(tables, TableOper(t, fields)) && TablesOf(TableOper(t, fields)) == [t]
  {
    assert AllSimple(tables, []) && AllScoped(tables, []);
  }

  lemma {:induction false} TreeScoped(tables: seq<Table>, from: seq<Table>, fields: seq<Field>)
    requires from != []
    ensures IsScoped(tables, TableTree(from, fields)) && TablesOf(TableTree(from, fields)) == from
  {
    var n := |from| - 1;
    assert from == from[..n] + [from[n]];
    TableScoped(tables, from[n], fields);
    if n > 0 {
      TreeScoped(tables, from[..n], fields);
      assert AllSimple(tables, []);
    }
  }

  lemma PlanScoped(stmt: SelectStmt)
    requires IsResolved(stmt)
    ensures IsScoped(stmt.tables, SelectPlan(stmt))
  {
    TreeScoped(stmt.tables, stmt.tables, stmt.queryFields);
    forall i | 0 <= i < |stmt.filterUnits| ensures IsSimple(stmt.tables, UnitExprs(stmt.filterUnits)[i]) {
      assert stmt.filterUnits[i] in stmt.filterUnits;
    }
    var source := TableTree(stmt.tables, stmt.queryFields);
    assert AllScoped(stmt.tables, [source]);
    assert IsScoped(stmt.tables, PredicateOper(stmt.filterUnits, source));
  }

  lemma ProjectionLowers(env: Env, o: LogicalOper)
    requires o.kind.Projection? && |o.children| == 1 && IsLowerable(o.children[0]) && Lower(o.children[0]).Ok?
    ensures IsLowerable(o) && Lower(o).Ok?
    ensures Opened(env, Lower(o).value) == ProjectStream(Specs(o.kind.outputs), Opened(env, Lower(o.children[0]).value))
  {
    assert Lower(o) == Ok(PhysPlan(ProjectTuples(Specs(o.kind.outputs)), [Lower(o.children[0]).value]));
  }

  lemma ProjectedGives(env: Env, o: LogicalOper, s: Stream)
    requires o.kind.Projection? && |o.children| == 1 && Gives(s, Denote(env, o.children[0]), NoIndex(o.children[0]))
    ensures RowsGiven(env, o, ProjectStream(Specs(o.kind.outputs), s))
  {
    RowsPermute(Specs(o.kind.outputs), s.items, Denote(env, o.children[0]));
    assert NoIndex(o) ==> NoIndex(o.children[0]);
  }

  lemma ProjectCuts(env: Env, specs: seq<CellSpec>, s: Stream, whole: Stream)
    requires Cuts(env, s, whole)
    ensures Cuts(env, ProjectStream(specs, s), ProjectStream(specs, whole))
  {
  }

  /** A projection over what gives its rows gives the rows projected. */
  lemma ProjectionGives(env: Env, o: LogicalOper, tables: seq<Table>) returns (whole: Stream)
    requires ExactIndex(env) && FailuresShow(env) && o.kind.Projection? && |o.children| <= 1
    requires o.children != [] ==>
               var below := o.children[0];
               && ((IsSource(below) && TablesOf(below) == tables) ||
                   (IsFilter(env, below) && TablesOf(below.children[0]) == tables))
               && IsScoped(tables, below)
    ensures IsLowerable(o) && Lower(o).Ok?
    ensures RowsGiven(env, o, whole) && UpToFailure(env, Opened(env, Lower(o).value), whole)
  {
    if o.children == [] {
      assert Denote(env, o) == [];
      whole := Stream([], RECORD_EOF);
    } else {
      var specs := Specs(o.kind.outputs);
      var below := BelowGives(env, o.children[0], tables);
      ProjectionLowers(env, o);
      ProjectedGives(env, o, below);
      ProjectCuts(env, specs, Opened(env, Lower(o.children[0]).value), below);
      whole := ProjectStream(specs, below);
    }
  }

  /** The stream ends without an error and carries the rows the plan denotes, in that very order
      without an index. */
  ghost predicate RowsGiven(env: Env, o: LogicalOper, s: Stream) {
    && s.end == RECORD_EOF
    && multiset(RowsOf(s.items)) == multiset(RowsOf(Denote(env, o)))
    && (NoIndex(o) ==> RowsOf(s.items) == RowsOf(Denote(env, o)))
  }

  /** The rewritten plan of a resolved statement is accepted by the generator, and its stream
      gives its rows, up to a failure of storage. */
  lemma LoweredPlanGives(env: Env, stmt: SelectStmt) returns (whole: Stream)
    requires IsResolved(stmt) && ExactIndex(env) && FailuresShow(env)
    ensures var o := RewriteLoop(env, SelectPlan(stmt));
            && IsLowerable(o) && Lower(o).Ok?
            && RowsGiven(env, o, whole) && UpToFailure(env, Opened(env, Lower(o).value), whole)
  {
    PlanShape(env, stmt);
    PlanScoped(stmt);
    TreeScoped(stmt.tables, stmt.tables, stmt.queryFields);
    LoopMeaning(env, SelectPlan(stmt));
    LoopScoped(env, stmt.tables, SelectPlan(stmt));
    whole := ProjectionGives(env, RewriteLoop(env, SelectPlan(stmt)), stmt.tables);
  }

  lemma RowsCut(env: Env, s: Stream, whole: Stream)
    requires Cuts(env, s, whole)
    ensures RowsOf(s.items) <= RowsOf(whole.items) && multiset(RowsOf(s.items)) <= multiset(RowsOf(whole.items))
  {
    var a, b := RowsOf(s.items), RowsOf(whole.items);
    assert b == a + b[|a|..];
  }

  /** Plan, rewrite, lower, open, drain and close a SELECT. Where no access to storage fails the end
      is reached. Where it is reached, the client has got the rows the statement asks for exactly
      when `KeepsNothingWrong` holds on the database, which the guard on the WHERE clause ensures:
      in left-major order when no index was used, and in some order otherwise. Where it is not, the
      client has got some of them and the error of the access. */
  method ExecuteSelect(env: Env, stmt: SelectStmt) returns (rc: RC, rows: seq<seq<Result<Cell>>>)
    requires IsResolved(stmt) && ExactIndex(env) && FailuresShow(env)
    ensures rc == RECORD_EOF || IsFailure(env, rc)
    ensures StorageWorks(env) ==> rc == RECORD_EOF
    ensures rc == RECORD_EOF ==> (multiset(rows) == multiset(SqlAnswer(env, stmt)) <==> KeepsNothingWrong(env, stmt))
    ensures rc != SUCCESS && (KeepsNothingWrong(env, stmt) ==> multiset(rows) <= multiset(SqlAnswer(env, stmt)))
    ensures KeepsNothingWrong(env, stmt) && NoIndex(RewriteLoop(env, SelectPlan(stmt))) ==>
              if rc == RECORD_EOF then rows == SqlAnswer(env, stmt) else rows <= SqlAnswer(env, stmt)
    ensures WhereGuard(env, stmt) ==> KeepsNothingWrong(env, stmt)
  {
    ghost var whole := LoweredPlanGives(env, stmt);
    RewrittenRowsExact(env, stmt);
    var logical := CreateSelectPlan(stmt);
    logical := Optimizer.RewriteToFixpoint(env, logical);
    var created, oper := Generator.Create(logical);
    var tuples;
    tuples, rc := Volcano.Drain(oper, env);
    rows := RowsOf(tuples);
    RowsCut(env, Stream(tuples, rc), whole);
  }
}
