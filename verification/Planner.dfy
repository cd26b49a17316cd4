/** From a resolved SELECT to a logical plan, and what the plan denotes in terms of the
    statement alone: combinations of records, one per table, that satisfy the WHERE clause. */
module Planner {

  import opened Wrappers
  import opened Expressions
  import opened FlatFilters
  import opened LogicalPlans
  import opened RewriteTheorems

  datatype FilterObj = Attr(field: Field) | Literal(cell: Cell)

  datatype FilterUnit = FilterUnit(comp: CompOp, left: FilterObj, right: FilterObj)

  datatype SelectStmt = SelectStmt(tables: seq<Table>, queryFields: seq<Field>, filterUnits: seq<FilterUnit>)

  function OperandExpr(o: FilterObj): Expr {
    match o
    case Attr(f) => FieldExpr(f)
    case Literal(c) => ValueExpr(c)
  }

  function UnitExpr(u: FilterUnit): Expr {
    ComparisonExpr(u.comp, OperandExpr(u.left), OperandExpr(u.right))
  }

  function UnitExprs(units: seq<FilterUnit>): (es: seq<Expr>)
    ensures |es| == |units|
  {
    seq(|units|, i requires 0 <= i < |units| => UnitExpr(units[i]))
  }

  function FieldsOf(table: Table, fields: seq<Field>): seq<Field> {
    if fields == [] then [] else
    (if fields[0].table == table.name then [fields[0]] else []) + FieldsOf(table, fields[1..])
  }

  /** A table operator is given the query's fields of its table. */
  lemma {:induction false} FieldsAreOfTable(table: Table, fields: seq<Field>)
    ensures forall f :: f in FieldsOf(table, fields) <==> f in fields && f.table == table.name
    ensures multiset(FieldsOf(table, fields)) <= multiset(fields)
  {
    if fields != [] {
      FieldsAreOfTable(table, fields[1..]);
      assert fields == [fields[0]] + fields[1..];
    }
  }

  function TableOper(table: Table, fields: seq<Field>): LogicalOper {
    LogicalOper(TableGet(table, FieldsOf(table, fields), []), [], [])
  }

  /** Left-deep joins in FROM order. */
  function TableTree(tables: seq<Table>, fields: seq<Field>): LogicalOper
    requires tables != []
  {
    var n := |tables| - 1;
    if n == 0 then TableOper(tables[0], fields)
    else LogicalOper(Join, [], [TableTree(tables[..n], fields), TableOper(tables[n], fields)])
  }

  function PredicateOper(units: seq<FilterUnit>, source: LogicalOper): LogicalOper {
    LogicalOper(Predicate, [ConjunctionExpr(AND, UnitExprs(units))], [source])
  }

  function SelectPlan(stmt: SelectStmt): LogicalOper
    requires stmt.tables != []
  {
    var source := TableTree(stmt.tables, stmt.queryFields);
    LogicalOper(Projection(stmt.queryFields), [],
                [if stmt.filterUnits == [] then source else PredicateOper(stmt.filterUnits, source)])
  }

  // ---------- the planner's loops ----------

  /** `create_predicate_logical_plan` */
  method CreatePredicatePlan(units: seq<FilterUnit>) returns (oper: Option<LogicalOper>)
    ensures oper == if units == [] then None
                    else Some(LogicalOper(Predicate, [ConjunctionExpr(AND, UnitExprs(units))], []))
  {
    var cmpExprs := [];
    for i := 0 to |units|
      invariant cmpExprs == UnitExprs(units[..i])
    {
      assert UnitExprs(units[..i + 1]) == UnitExprs(units[..i]) + [UnitExpr(units[i])];
      var unit := units[i];
      var left := if unit.left.Attr? then FieldExpr(unit.left.field) else ValueExpr(unit.left.cell);
      var right := if unit.right.Attr? then FieldExpr(unit.right.field) else ValueExpr(unit.right.cell);
      cmpExprs := cmpExprs + [ComparisonExpr(unit.comp, left, right)];
    }
    assert units[..|units|] == units;
    oper := None;
    if cmpExprs != [] {
      oper := Some(LogicalOper(Predicate, [ConjunctionExpr(AND, cmpExprs)], []));
    }
  }

  /** `create_select_logical_plan` */
  method CreateSelectPlan(stmt: SelectStmt) returns (oper: LogicalOper)
    requires stmt.tables != []
    ensures oper == SelectPlan(stmt)
  {
    var tableOper := None;
    for i := 0 to |stmt.tables|
      invariant tableOper == if i == 0 then None else Some(TableTree(stmt.tables[..i], stmt.queryFields))
    {
      var table := stmt.tables[i];
      var fields := [];
      for j := 0 to |stmt.queryFields|
        invariant fields + FieldsOf(table, stmt.queryFields[j..]) == FieldsOf(table, stmt.queryFields)
      {
        assert stmt.queryFields[j..][1..] == stmt.queryFields[j + 1..];
        if stmt.queryFields[j].table == table.name {
          fields := fields + [stmt.queryFields[j]];
        }
      }
      assert stmt.queryFields[|stmt.queryFields|..] == [] && fields + [] == fields;
      var tableGet := LogicalOper(TableGet(table, fields, []), [], []);
      assert stmt.tables[..i + 1][..i] == stmt.tables[..i];
      match tableOper
      case None => tableOper := Some(tableGet);
      case Some(left) =>
        tableOper := Some(LogicalOper(Join, [], [left, tableGet]));
    }
    assert stmt.tables[..|stmt.tables|] == stmt.tables;
    var predicateOper := CreatePredicatePlan(stmt.filterUnits);
    oper := LogicalOper(Projection(stmt.queryFields), [], []);
    match predicateOper
    case Some(p) => oper := oper.(children := [p.(children := [tableOper.value])]);
    case None => oper := oper.(children := [tableOper.value]);
  }

  // ---------- the statement's own meaning ----------

  /** Every field of the statement names a column of one of its tables, and no comparison is
      without an operator: what statement resolution checks before planning. */
  predicate IsResolved(stmt: SelectStmt) {
    && stmt.tables != []
    && (forall f :: f in stmt.queryFields ==> HasColumn(stmt.tables, CellSpec(f.table, f.name)))
    && (forall u :: u in stmt.filterUnits ==>
          u.comp != NO_OP && OperandResolved(stmt.tables, u.left) && OperandResolved(stmt.tables, u.right))
  }

  predicate OperandResolved(tables: seq<Table>, o: FilterObj) {
    o.Attr? ==> HasColumn(tables, CellSpec(o.field.table, o.field.name))
  }

  predicate HasColumn(tables: seq<Table>, spec: CellSpec) {
    exists k :: 0 <= k < |tables| && tables[k].name == spec.table && spec.field in tables[k].fields
  }

  function Cons<T>(x: T, cs: seq<seq<T>>): seq<seq<T>> {
    if cs == [] then [] else [[x] + cs[0]] + Cons(x, cs[1..])
  }

  function ConsEach<T>(xs: seq<T>, cs: seq<seq<T>>): seq<seq<T>> {
    if xs == [] then [] else Cons(xs[0], cs) + ConsEach(xs[1..], cs)
  }

  /** All choices of one record per table, the first table varying slowest. */
  function Combinations(tables: seq<Table>): seq<seq<Record>> {
    if tables == [] then [[]] else ConsEach(tables[0].rows, Combinations(tables[1..]))
  }

  /** The cell a column name stands for: read from the first table of that name. */
  function Lookup(tables: seq<Table>, records: seq<Record>, spec: CellSpec): Result<Cell>
    requires |records| == |tables|
  {
    if tables == [] then Err(NOTFOUND)
    else if tables[0].name == spec.table && spec.field in tables[0].fields then
      var i := ColumnOf(tables[0].fields, spec.field);
      if i < |records[0]| then Ok(records[0][i]) else Ok(Undefined)
    else Lookup(tables[1..], records[1..], spec)
  }

  function Operand(tables: seq<Table>, records: seq<Record>, o: FilterObj): Result<Cell>
    requires |records| == |tables|
  {
    match o
    case Attr(f) => Lookup(tables, records, CellSpec(f.table, f.name))
    case Literal(c) => Ok(c)
  }

  predicate Satisfies(env: Env, tables: seq<Table>, records: seq<Record>, units: seq<FilterUnit>)
    requires |records| == |tables|
  {
    forall u :: u in units ==>
      var l := Operand(tables, records, u.left);
      var r := Operand(tables, records, u.right);
      l.Ok? && r.Ok? && CompareCells(env, u.comp, l.value, r.value) == Ok(true)
  }

  function OutputRow(tables: seq<Table>, records: seq<Record>, fields: seq<Field>): seq<Result<Cell>>
    requires |records| == |tables|
  {
    seq(|fields|, i requires 0 <= i < |fields| => Lookup(tables, records, CellSpec(fields[i].table, fields[i].name)))
  }

  function Answer(env: Env, stmt: SelectStmt, choices: seq<seq<Record>>): seq<seq<Result<Cell>>>
    requires forall i :: 0 <= i < |choices| ==> |choices[i]| == |stmt.tables|
  {
    if choices == [] then [] else
    (if Satisfies(env, stmt.tables, choices[0], stmt.filterUnits)
     then [OutputRow(stmt.tables, choices[0], stmt.queryFields)] else [])
    + Answer(env, stmt, choices[1..])
  }

  /** What the statement asks for. */
  function SqlAnswer(env: Env, stmt: SelectStmt): seq<seq<Result<Cell>>> {
    CombinationLengths(stmt.tables);
    Answer(env, stmt, Combinations(stmt.tables))
  }

  /** The cells a client reads off a projected tuple, `cell_at` for each position. */
  function CellsOf(t: Tuple): seq<Result<Cell>> {
    match t
    case ProjectTuple(specs, tuple) => seq(|specs|, i requires 0 <= i < |specs| => FindCell(tuple, specs[i]))
    case _ => []
  }

  function RowsOf(ts: seq<Tuple>): (r: seq<seq<Result<Cell>>>)
    ensures |r| == |ts|
  {
    seq(|ts|, i requires 0 <= i < |ts| => CellsOf(ts[i]))
  }

  // ---------- combinations ----------

  lemma {:induction false} CombinationLengths(tables: seq<Table>)
    ensures forall i :: 0 <= i < |Combinations(tables)| ==> |Combinations(tables)[i]| == |tables|
  {
    if tables != [] {
      CombinationLengths(tables[1..]);
      ConsEachLengths(tables[0].rows, Combinations(tables[1..]), |tables| - 1);
    }
  }

  lemma {:induction false} ConsEachLengths(xs: seq<Record>, cs: seq<seq<Record>>, n: nat)
    requires forall i :: 0 <= i < |cs| ==> |cs[i]| == n
    ensures forall i :: 0 <= i < |ConsEach(xs, cs)| ==> |ConsEach(xs, cs)[i]| == n + 1
  {
    if xs != [] {
      ConsLengths(xs[0], cs, n);
      ConsEachLengths(xs[1..], cs, n);
    }
  }

  lemma {:induction false} ConsLengths(x: Record, cs: seq<seq<Record>>, n: nat)
    requires forall i :: 0 <= i < |cs| ==> |cs[i]| == n
    ensures forall i :: 0 <= i < |Cons(x, cs)| ==> |Cons(x, cs)[i]| == n + 1
  {
    if cs != [] { ConsLengths(x, cs[1..], n); }
  }

  function Snoc(c: seq<Record>, rs: seq<Record>): seq<seq<Record>> {
    if rs == [] then [] else [c + [rs[0]]] + Snoc(c, rs[1..])
  }

  function SnocEach(cs: seq<seq<Record>>, rs: seq<Record>): seq<seq<Record>> {
    if cs == [] then [] else Snoc(cs[0], rs) + SnocEach(cs[1..], rs)
  }

  lemma {:induction false} SnocEachConcat(a: seq<seq<Record>>, b: seq<seq<Record>>, rs: seq<Record>)
    ensures SnocEach(a + b, rs) == SnocEach(a, rs) + SnocEach(b, rs)
  {
    if a == [] {
      assert a + b == b;
    } else {
      assert (a + b)[1..] == a[1..] + b;
      SnocEachConcat(a[1..], b, rs);
    }
  }

  lemma {:induction false} ConsConcat(x: Record, a: seq<seq<Record>>, b: seq<seq<Record>>)
    ensures Cons(x, a + b) == Cons(x, a) + Cons(x, b)
  {
    if a == [] {
      assert a + b == b;
    } else {
      assert (a + b)[1..] == a[1..] + b;
      ConsConcat(x, a[1..], b);
    }
  }

  lemma {:induction false} ConsSnoc(x: Record, c: seq<Record>, rs: seq<Record>)
    ensures Cons(x, Snoc(c, rs)) == Snoc([x] + c, rs)
  {
    if rs != [] {
      assert [x] + (c + [rs[0]]) == [x] + c + [rs[0]];
      assert Snoc(c, rs)[1..] == Snoc(c, rs[1..]);
      ConsSnoc(x, c, rs[1..]);
    }
  }

  lemma {:induction false} ConsSnocEach(x: Record, cs: seq<seq<Record>>, rs: seq<Record>)
    ensures Cons(x, SnocEach(cs, rs)) == SnocEach(Cons(x, cs), rs)
  {
    if cs != [] {
      ConsConcat(x, Snoc(cs[0], rs), SnocEach(cs[1..], rs));
      ConsSnoc(x, cs[0], rs);
      ConsSnocEach(x, cs[1..], rs);
      assert Cons(x, cs)[1..] == Cons(x, cs[1..]);
    }
  }

  lemma {:induction false} ConsEachSnocEach(xs: seq<Record>, cs: seq<seq<Record>>, rs: seq<Record>)
    ensures ConsEach(xs, SnocEach(cs, rs)) == SnocEach(ConsEach(xs, cs), rs)
  {
    if xs != [] {
      ConsSnocEach(xs[0], cs, rs);
      ConsEachSnocEach(xs[1..], cs, rs);
      SnocEachConcat(Cons(xs[0], cs), ConsEach(xs[1..], cs), rs);
    }
  }

  /** Adding a table at the end varies its record fastest. */
  lemma {:induction false} CombinationsSnoc(tables: seq<Table>, t: Table)
    ensures Combinations(tables + [t]) == SnocEach(Combinations(tables), t.rows)
  {
    if tables == [] {
      assert tables + [t] == [t] && [t][1..] == [];
      SingleTable(t.rows);
    } else {
      assert (tables + [t])[1..] == tables[1..] + [t];
      CombinationsSnoc(tables[1..], t);
      ConsEachSnocEach(tables[0].rows, Combinations(tables[1..]), t.rows);
    }
  }

  lemma {:induction false} SingleTable(rows: seq<Record>)
    ensures ConsEach(rows, [[]]) == Snoc([], rows) == SnocEach([[]], rows)
  {
    var none: seq<seq<Record>> := [[]];
    assert none[1..] == [];
    assert SnocEach(none, rows) == Snoc([], rows) + SnocEach([], rows);
    if rows != [] {
      SingleTable(rows[1..]);
      assert [] + [rows[0]] == [rows[0]] + [] == [rows[0]];
      assert Cons(rows[0], none) == [[rows[0]]] + Cons(rows[0], []);
    }
  }

  // ---------- the tuples of a source ----------

  /** The left-deep joined tuple that stands for one combination. */
  function TupleOf(tables: seq<Table>, records: seq<Record>): Tuple
    requires tables != [] && |records| == |tables|
  {
    var n := |tables| - 1;
    if n == 0 then RowTuple(tables[0], records[0])
    else JoinedTuple(TupleOf(tables[..n], records[..n]), RowTuple(tables[n], records[n]))
  }

  function TuplesOf(tables: seq<Table>, cs: seq<seq<Record>>): (r: seq<Tuple>)
    requires tables != []
    requires forall i :: 0 <= i < |cs| ==> |cs[i]| == |tables|
    ensures |r| == |cs|
  {
    seq(|cs|, i requires 0 <= i < |cs| => TupleOf(tables, cs[i]))
  }

  lemma {:induction false} ScanAll(env: Env, table: Table, rows: seq<Record>)
    ensures |ScanTable(env, table, rows, [])| == |rows|
    ensures forall i :: 0 <= i < |rows| ==> ScanTable(env, table, rows, [])[i] == RowTuple(table, rows[i])
  {
    if rows != [] { ScanAll(env, table, rows[1..]); }
  }

  lemma {:induction false} PairAt(l: Tuple, rs: seq<Tuple>)
    ensures |Pair(l, rs)| == |rs|
    ensures forall i :: 0 <= i < |rs| ==> Pair(l, rs)[i] == JoinedTuple(l, rs[i])
  {
    if rs != [] { PairAt(l, rs[1..]); }
  }

  lemma {:induction false} SnocAt(c: seq<Record>, rs: seq<Record>)
    ensures |Snoc(c, rs)| == |rs|
    ensures forall i :: 0 <= i < |rs| ==> Snoc(c, rs)[i] == c + [rs[i]]
  {
    if rs != [] { SnocAt(c, rs[1..]); }
  }

  lemma {:induction false} SnocEachLengths(cs: seq<seq<Record>>, rs: seq<Record>, n: nat)
    requires forall i :: 0 <= i < |cs| ==> |cs[i]| == n
    ensures forall i :: 0 <= i < |SnocEach(cs, rs)| ==> |SnocEach(cs, rs)[i]| == n + 1
  {
    if cs != [] {
      SnocAt(cs[0], rs);
      SnocEachLengths(cs[1..], rs, n);
    }
  }

  /** Joining one more table to the tuple of one combination. */
  lemma PairTuples(env: Env, tables: seq<Table>, t: Table, c: seq<Record>)
    requires tables != [] && |c| == |tables|
    ensures var pairs := Pair(TupleOf(tables, c), ScanTable(env, t, t.rows, []));
            && |pairs| == |Snoc(c, t.rows)| == |t.rows|
            && (forall i :: 0 <= i < |t.rows| ==>
                  |Snoc(c, t.rows)[i]| == |tables + [t]| && pairs[i] == TupleOf(tables + [t], Snoc(c, t.rows)[i]))
  {
    var scan := ScanTable(env, t, t.rows, []);
    ScanAll(env, t, t.rows);
    PairAt(TupleOf(tables, c), scan);
    SnocAt(c, t.rows);
    forall i | 0 <= i < |t.rows|
      ensures Pair(TupleOf(tables, c), scan)[i] == TupleOf(tables + [t], c + [t.rows[i]])
    {
      assert (tables + [t])[..|tables|] == tables && (c + [t.rows[i]])[..|tables|] == c;
    }
  }

  /** Joining one more table to the tuples of some combinations gives the tuples of the longer
      combinations, in the same order. */
  lemma {:induction false} ProductTuples(env: Env, tables: seq<Table>, t: Table, cs: seq<seq<Record>>)
    requires tables != []
    requires forall i :: 0 <= i < |cs| ==> |cs[i]| == |tables|
    requires forall i :: 0 <= i < |SnocEach(cs, t.rows)| ==> |SnocEach(cs, t.rows)[i]| == |tables + [t]|
    ensures Product(TuplesOf(tables, cs), ScanTable(env, t, t.rows, [])) == TuplesOf(tables + [t], SnocEach(cs, t.rows))
  {
    if cs != [] {
      SnocEachLengths(cs[1..], t.rows, |tables|);
      ProductTuples(env, tables, t, cs[1..]);
      PairTuples(env, tables, t, cs[0]);
      assert TuplesOf(tables, cs)[1..] == TuplesOf(tables, cs[1..]);
      TuplesConcat(tables + [t], Snoc(cs[0], t.rows), SnocEach(cs[1..], t.rows));
    }
  }

  lemma TuplesConcat(tables: seq<Table>, a: seq<seq<Record>>, b: seq<seq<Record>>)
    requires tables != []
    requires forall i :: 0 <= i < |a| ==> |a[i]| == |tables|
    requires forall i :: 0 <= i < |b| ==> |b[i]| == |tables|
    ensures forall i :: 0 <= i < |a + b| ==> |(a + b)[i]| == |tables|
    ensures TuplesOf(tables, a + b) == TuplesOf(tables, a) + TuplesOf(tables, b)
  {
  }

  /** The join tree of a FROM list denotes its combinations, left-major. */
  lemma {:induction false} TreeTuples(env: Env, tables: seq<Table>, fields: seq<Field>)
    requires tables != []
    ensures IsSource(TableTree(tables, fields))
    ensures forall i :: 0 <= i < |Combinations(tables)| ==> |Combinations(tables)[i]| == |tables|
    ensures Denote(env, TableTree(tables, fields)) == TuplesOf(tables, Combinations(tables))
  {
    CombinationLengths(tables);
    var n := |tables| - 1;
    assert tables == tables[..n] + [tables[n]];
    if n == 0 {
      assert tables[..0] == [] && [tables[0]][1..] == [];
      ScanAll(env, tables[0], tables[0].rows);
      SingleTable(tables[0].rows);
      SnocAt([], tables[0].rows);
    } else {
      TreeTuples(env, tables[..n], fields);
      CombinationsSnoc(tables[..n], tables[n]);
      ProductTuples(env, tables[..n], tables[n], Combinations(tables[..n]));
    }
  }

  // ---------- reading cells ----------

  lemma ColumnFound(fields: seq<string>, name: string)
    ensures ColumnOf(fields, name) < |fields| <==> name in fields
  {
    if name in fields {
      var k :| 0 <= k < |fields| && fields[k] == name;
    }
  }

  lemma {:induction false} LookupSnoc(tables: seq<Table>, records: seq<Record>, t: Table, r: Record, spec: CellSpec)
    requires |records| == |tables|
    ensures Lookup(tables + [t], records + [r], spec) ==
            if Lookup(tables, records, spec) == Err(NOTFOUND) then FindCell(RowTuple(t, r), spec)
            else Lookup(tables, records, spec)
  {
    ColumnFound(t.fields, spec.field);
    if tables == [] {
      assert tables + [t] == [t] && records + [r] == [r];
      assert [t][1..] == [] && [r][1..] == [];
    } else {
      assert (tables + [t])[1..] == tables[1..] + [t];
      assert (records + [r])[1..] == records[1..] + [r];
      LookupSnoc(tables[1..], records[1..], t, r, spec);
    }
  }

  /** Looking a column up in a joined tuple reads it from the first table of that name. */
  lemma {:induction false} FindIsLookup(tables: seq<Table>, records: seq<Record>, spec: CellSpec)
    requires tables != [] && |records| == |tables|
    ensures FindCell(TupleOf(tables, records), spec) == Lookup(tables, records, spec)
  {
    var n := |tables| - 1;
    assert tables == tables[..n] + [tables[n]] && records == records[..n] + [records[n]];
    LookupSnoc(tables[..n], records[..n], tables[n], records[n], spec);
    if n > 0 {
      FindIsLookup(tables[..n], records[..n], spec);
    }
  }

  /** With distinct table names, `table.column` is read from the record of that very table. */
  lemma {:induction false} LookupRightTable(tables: seq<Table>, records: seq<Record>, k: nat, column: string)
    requires |records| == |tables| && k < |tables|
    requires forall i, j :: 0 <= i < j < |tables| ==> tables[i].name != tables[j].name
    requires column in tables[k].fields && |tables[k].fields| <= |records[k]|
    ensures Lookup(tables, records, CellSpec(tables[k].name, column)) ==
            Ok(records[k][ColumnOf(tables[k].fields, column)])
  {
    ColumnFound(tables[k].fields, column);
    if k > 0 {
      assert tables[0].name != tables[k].name;
      LookupRightTable(tables[1..], records[1..], k - 1, column);
    }
  }

  // ---------- the plan answers the statement ----------

  lemma OperandValue(env: Env, tables: seq<Table>, records: seq<Record>, o: FilterObj)
    requires tables != [] && |records| == |tables|
    ensures Eval(env, OperandExpr(o), TupleOf(tables, records)) == Operand(tables, records, o)
  {
    if o.Attr? { FindIsLookup(tables, records, CellSpec(o.field.table, o.field.name)); }
  }

  /** The planned AND keeps the tuple of a combination exactly when the combination satisfies the
      WHERE clause. */
  lemma FilterIsWhere(env: Env, tables: seq<Table>, records: seq<Record>, units: seq<FilterUnit>)
    requires tables != [] && |records| == |tables|
    ensures Holds(env, ConjunctionExpr(AND, UnitExprs(units)), TupleOf(tables, records)) <==>
            Satisfies(env, tables, records, units)
  {
    var t := TupleOf(tables, records);
    AndHolds(env, UnitExprs(units), t);
    forall i | 0 <= i < |units|
      ensures Holds(env, UnitExprs(units)[i], t) <==>
              var u := units[i];
              var l := Operand(tables, records, u.left);
              var r := Operand(tables, records, u.right);
              l.Ok? && r.Ok? && CompareCells(env, u.comp, l.value, r.value) == Ok(true)
    {
      OperandValue(env, tables, records, units[i].left);
      OperandValue(env, tables, records, units[i].right);
    }
    if AllHold(env, UnitExprs(units), t) {
      forall u | u in units
        ensures var l := Operand(tables, records, u.left);
                var r := Operand(tables, records, u.right);
                l.Ok? && r.Ok? && CompareCells(env, u.comp, l.value, r.value) == Ok(true)
      {
        var i :| 0 <= i < |units| && units[i] == u;
        assert Holds(env, UnitExprs(units)[i], t);
      }
    }
    if Satisfies(env, tables, records, units) {
      forall i | 0 <= i < |units| ensures Holds(env, UnitExprs(units)[i], t) {
        assert units[i] in units;
      }
    }
  }

  lemma {:induction false} FilterAnswers(env: Env, stmt: SelectStmt, cs: seq<seq<Record>>)
    requires stmt.tables != []
    requires forall i :: 0 <= i < |cs| ==> |cs[i]| == |stmt.tables|
    ensures RowsOf(Project(Specs(stmt.queryFields),
                           Filter(env, ConjunctionExpr(AND, UnitExprs(stmt.filterUnits)), TuplesOf(stmt.tables, cs))))
            == Answer(env, stmt, cs)
  {
    if cs != [] {
      FilterAnswers(env, stmt, cs[1..]);
      var e := ConjunctionExpr(AND, UnitExprs(stmt.filterUnits));
      var ts := TuplesOf(stmt.tables, cs);
      assert ts[1..] == TuplesOf(stmt.tables, cs[1..]);
      FilterIsWhere(env, stmt.tables, cs[0], stmt.filterUnits);
      var specs := Specs(stmt.queryFields);
      RowMatches(stmt.tables, cs[0], stmt.queryFields);
      if Holds(env, e, ts[0]) {
        assert Filter(env, e, ts) == [ts[0]] + Filter(env, e, ts[1..]);
        assert Project(specs, Filter(env, e, ts)) == [ProjectTuple(specs, ts[0])] + Project(specs, Filter(env, e, ts[1..]));
      } else {
        assert Filter(env, e, ts) == Filter(env, e, ts[1..]);
      }
    }
  }

  lemma RowMatches(tables: seq<Table>, records: seq<Record>, fields: seq<Field>)
    requires tables != [] && |records| == |tables|
    ensures CellsOf(ProjectTuple(Specs(fields), TupleOf(tables, records))) == OutputRow(tables, records, fields)
  {
    forall i | 0 <= i < |fields|
      ensures FindCell(TupleOf(tables, records), Specs(fields)[i]) == OutputRow(tables, records, fields)[i]
    {
      FindIsLookup(tables, records, CellSpec(fields[i].table, fields[i].name));
    }
  }

  lemma {:induction false} FilterTrue(env: Env, ts: seq<Tuple>)
    ensures Filter(env, ConjunctionExpr(AND, UnitExprs([])), ts) == ts
  {
    if ts != [] {
      AndHolds(env, UnitExprs([]), ts[0]);
      FilterTrue(env, ts[1..]);
    }
  }

  /** The plan as first built denotes the answer to the statement. */
  lemma PlanAnswers(env: Env, stmt: SelectStmt)
    requires stmt.tables != []
    ensures RowsOf(Denote(env, SelectPlan(stmt))) == SqlAnswer(env, stmt)
  {
    TreeTuples(env, stmt.tables, stmt.queryFields);
    var ts := TuplesOf(stmt.tables, Combinations(stmt.tables));
    FilterAnswers(env, stmt, Combinations(stmt.tables));
    var source := TableTree(stmt.tables, stmt.queryFields);
    if stmt.filterUnits == [] {
      FilterTrue(env, ts);
      assert Denote(env, SelectPlan(stmt)) == Project(Specs(stmt.queryFields), ts);
    } else {
      var p := PredicateOper(stmt.filterUnits, source);
      assert Denote(env, p) == Filter(env, p.expressions[0], ts);
      assert Denote(env, SelectPlan(stmt)) == Project(Specs(stmt.queryFields), Denote(env, p));
    }
  }

  lemma PlanShape(env: Env, stmt: SelectStmt)
    requires IsResolved(stmt)
    ensures IsPlanned(env, SelectPlan(stmt))
    ensures AllComparisons(UnitExprs(stmt.filterUnits))
    ensures stmt.filterUnits != [] ==> IsFilter(env, SelectPlan(stmt).children[0])
  {
    TreeTuples(env, stmt.tables, stmt.queryFields);
    forall i | 0 <= i < |stmt.filterUnits| ensures IsComparison(UnitExprs(stmt.filterUnits)[i]) {
      assert stmt.filterUnits[i] in stmt.filterUnits;
    }
    var source := TableTree(stmt.tables, stmt.queryFields);
    assert source.kind.TableGet? ==> source.kind.predicates == [];
  }

  /** The guard on the WHERE clause: no comparison that needs a record comes before the first
      comparison of two literals that is false. */
  predicate WhereGuard(env: Env, stmt: SelectStmt) {
    FalseComesFirst(env, UnitExprs(stmt.filterUnits))
  }

  /** The rewritten plan answers the statement, on every database, when the WHERE clause passes
      the guard. */
  lemma RewrittenPlanAnswers(env: Env, stmt: SelectStmt)
    requires IsResolved(stmt) && WhereGuard(env, stmt)
    ensures RowsOf(Denote(env, RewriteLoop(env, SelectPlan(stmt)))) == SqlAnswer(env, stmt)
  {
    PlanShape(env, stmt);
    PlanAnswers(env, stmt);
    if stmt.filterUnits == [] {
      LoopMeaning(env, SelectPlan(stmt));
      assert Denote(env, SelectPlan(stmt)) == Meaning(env, SelectPlan(stmt));
    } else {
      RewritePreserves(env, SelectPlan(stmt));
    }
  }

  /** On a given database the rewritten plan answers the statement exactly when the WHERE clause
      holds no false comparison of literals, or no combination of records passes the comparison
      that the conjunction rule keeps instead. */
  lemma RewrittenPlanExact(env: Env, stmt: SelectStmt)
    requires IsResolved(stmt) && stmt.filterUnits != []
    ensures forall i :: 0 <= i < |Combinations(stmt.tables)| ==> |Combinations(stmt.tables)[i]| == |stmt.tables|
    ensures var cs := UnitExprs(stmt.filterUnits);
            RowsOf(Denote(env, RewriteLoop(env, SelectPlan(stmt)))) == SqlAnswer(env, stmt) <==>
            !(HasFalse(env, cs) &&
              SomeHolds(env, Replacement(env, cs).value, TuplesOf(stmt.tables, Combinations(stmt.tables))))
  {
    PlanShape(env, stmt);
    PlanAnswers(env, stmt);
    TreeTuples(env, stmt.tables, stmt.queryFields);
    RewriteExact(env, SelectPlan(stmt));
  }

  // ---------- outside the guard ----------

  const EXAMPLE_FIELD := Field("t", "f", INTS)
  const EXAMPLE_TABLE := Table("t", ["f"], [[Ints(1)]], {})

  function CombinationTuples(tables: seq<Table>): seq<Tuple>
    requires tables != []
  {
    CombinationLengths(tables);
    TuplesOf(tables, Combinations(tables))
  }

  /** The WHERE clause has no false comparison of literals, or on this database no combination of
      records passes the comparison the conjunction rule keeps instead. */
  predicate KeepsNothingWrong(env: Env, stmt: SelectStmt)
    requires stmt.tables != []
  {
    var cs := UnitExprs(stmt.filterUnits);
    !(HasFalse(env, cs) && SomeHolds(env, Replacement(env, cs).value, CombinationTuples(stmt.tables)))
  }

  /** The rows of the rewritten plan are those asked for, in any order, exactly then: and then they
      are so in the same order. The guard on the WHERE clause ensures it on every database. */
  lemma RewrittenRowsExact(env: Env, stmt: SelectStmt)
    requires IsResolved(stmt)
    ensures var rows := RowsOf(Denote(env, RewriteLoop(env, SelectPlan(stmt))));
            && (multiset(rows) == multiset(SqlAnswer(env, stmt)) <==> KeepsNothingWrong(env, stmt))
            && (KeepsNothingWrong(env, stmt) ==> rows == SqlAnswer(env, stmt))
    ensures WhereGuard(env, stmt) ==> KeepsNothingWrong(env, stmt)
  {
    var rows := RowsOf(Denote(env, RewriteLoop(env, SelectPlan(stmt))));
    if stmt.filterUnits == [] {
      RewrittenPlanAnswers(env, stmt);
    } else {
      RewrittenPlanExact(env, stmt);
      if WhereGuard(env, stmt) { RewrittenPlanAnswers(env, stmt); }
      if !KeepsNothingWrong(env, stmt) {
        FalseAsksNothing(env, stmt);
        assert rows != [] && rows[0] in multiset(rows);
      }
    }
  }

  lemma FalseAsksNothing(env: Env, stmt: SelectStmt)
    requires IsResolved(stmt) && stmt.filterUnits != [] && HasFalse(env, UnitExprs(stmt.filterUnits))
    ensures SqlAnswer(env, stmt) == []
  {
    PlanShape(env, stmt);
    PlanAnswers(env, stmt);
    RewriteExact(env, SelectPlan(stmt));
  }

  /** SELECT f FROM t WHERE f = 1 AND 1 = 2 */
  const EXAMPLE_STMT := SelectStmt([EXAMPLE_TABLE], [EXAMPLE_FIELD],
                                   [FilterUnit(EQUAL_TO, Attr(EXAMPLE_FIELD), Literal(Ints(1))),
                                    FilterUnit(EQUAL_TO, Literal(Ints(1)), Literal(Ints(2)))])

  lemma ExampleSource(env: Env)
    ensures Combinations([EXAMPLE_TABLE]) == [EXAMPLE_TABLE.rows]
    ensures Denote(env, TableTree([EXAMPLE_TABLE], [EXAMPLE_FIELD])) == [RowTuple(EXAMPLE_TABLE, [Ints(1)])]
    ensures FindCell(RowTuple(EXAMPLE_TABLE, [Ints(1)]), CellSpec("t", "f")) == Ok(Ints(1))
  {
    var rows := EXAMPLE_TABLE.rows;
    SingleTable(rows);
    SnocAt([], rows);
    assert [EXAMPLE_TABLE][1..] == [] && [] + [rows[0]] == rows;
    ScanAll(env, EXAMPLE_TABLE, rows);
    assert ColumnOf(["f"], "f") == 0;
  }

  lemma ExampleFilter(env: Env)
    requires env.compare(Ints(1), Ints(1)) == 0 && env.compare(Ints(1), Ints(2)) != 0
    ensures var cs := UnitExprs(EXAMPLE_STMT.filterUnits);
            && Constant(env, cs[0]).None? && Constant(env, cs[1]) == Some(false)
            && Replacement(env, cs) == Some(cs[0])
            && Holds(env, cs[0], RowTuple(EXAMPLE_TABLE, [Ints(1)]))
            && !Holds(env, cs[1], RowTuple(EXAMPLE_TABLE, [Ints(1)]))
  {
    var cs := UnitExprs(EXAMPLE_STMT.filterUnits);
    var t := RowTuple(EXAMPLE_TABLE, [Ints(1)]);
    ExampleSource(env);
    assert Constant(env, cs[1]) == Some(false);
    ConstantHolds(env, cs[1], t);
    assert Eval(env, FieldExpr(EXAMPLE_FIELD), t) == Ok(Ints(1));
    assert Eval(env, ValueExpr(Ints(1)), t) == Ok(Ints(1));
  }

  lemma ExampleResolved(env: Env)
    ensures IsResolved(EXAMPLE_STMT)
  {
    assert EXAMPLE_STMT.tables[0].name == "t" && "f" in EXAMPLE_STMT.tables[0].fields by {
      assert ["f"][0] == "f";
    }
    assert HasColumn(EXAMPLE_STMT.tables, CellSpec("t", "f"));
  }

  /** A WHERE clause outside the guard for which the rewritten plan is wrong: with one record
      holding 1, the statement asks for nothing and the rewritten plan returns the record. */
  lemma RewriteCounterexample(env: Env)
    requires env.compare(Ints(1), Ints(1)) == 0 && env.compare(Ints(1), Ints(2)) != 0
    ensures IsResolved(EXAMPLE_STMT) && !WhereGuard(env, EXAMPLE_STMT)
    ensures SqlAnswer(env, EXAMPLE_STMT) == []
    ensures RowsOf(Denote(env, RewriteLoop(env, SelectPlan(EXAMPLE_STMT)))) == [[Ok(Ints(1))]]
  {
    var cs := UnitExprs(EXAMPLE_STMT.filterUnits);
    var t := RowTuple(EXAMPLE_TABLE, [Ints(1)]);
    ExampleSource(env);
    ExampleFilter(env);
    ExampleResolved(env);
    assert !FalseBefore(env, cs, 0);
    assert !WhereGuard(env, EXAMPLE_STMT);
    ExampleNothing(env);
    PlanShape(env, EXAMPLE_STMT);
    LoopMeaning(env, SelectPlan(EXAMPLE_STMT));
    var e := ConjunctionExpr(AND, cs);
    assert OutcomeFilter(env, e, [t]) == [t] by {
      assert Outcome(env, e, t);
      assert [t][1..] == [];
    }
    var specs := Specs([EXAMPLE_FIELD]);
    assert Meaning(env, SelectPlan(EXAMPLE_STMT)) == Project(specs, [t]);
    assert CellsOf(Project(specs, [t])[0]) == [Ok(Ints(1))];
  }

  lemma ExampleNothing(env: Env)
    requires env.compare(Ints(1), Ints(1)) == 0 && env.compare(Ints(1), Ints(2)) != 0
    ensures SqlAnswer(env, EXAMPLE_STMT) == []
  {
    var records := EXAMPLE_TABLE.rows;
    ExampleSource(env);
    ExampleFilter(env);
    FilterIsWhere(env, [EXAMPLE_TABLE], records, EXAMPLE_STMT.filterUnits);
    AndHolds(env, UnitExprs(EXAMPLE_STMT.filterUnits), TupleOf([EXAMPLE_TABLE], records));
    assert [records][1..] == [];
    assert Answer(env, EXAMPLE_STMT, [records]) == [];
  }
}
