/** What the operators of a WHERE clause mean on integer columns, up to the statement's answer. */
module Comparisons {

  import opened Expressions
  import opened TupleCells
  import opened Planner

  /** The relation an operator names. */
  predicate Related(op: CompOp, i: int, j: int) {
    match op
    case EQUAL_TO => i == j
    case LESS_EQUAL => i <= j
    case NOT_EQUAL => i != j
    case LESS_THAN => i < j
    case GREAT_EQUAL => i >= j
    case GREAT_THAN => i > j
    case NO_OP => false
  }

  /** On two integers that `compare` puts in order, each operator is its relation. */
  lemma IntsRelated(env: Env, op: CompOp, i: int, j: int)
    requires op != NO_OP && Orders(env.compare(Ints(i), Ints(j)), i, j)
    ensures CompareCells(env, op, Ints(i), Ints(j)) == Ok(Related(op, i, j))
  {
  }

  /** Cells compare as `TupleCell::compare` has it. */
  ghost predicate ComparesAsCode(env: Env) {
    forall l, r :: env.compare(l, r) == Compare(l, r)
  }

  /** In the code `=` and `<>` mean what they say of all integers; the other operators do exactly
      when the difference of the two fits an `int`. */
  lemma CodeRelates(env: Env, i: int, j: int)
    requires ComparesAsCode(env) && IsInt32(i) && IsInt32(j)
    ensures forall op :: op == EQUAL_TO || op == NOT_EQUAL ==>
              CompareCells(env, op, Ints(i), Ints(j)) == Ok(Related(op, i, j))
    ensures forall op :: op in {LESS_THAN, LESS_EQUAL, GREAT_THAN, GREAT_EQUAL} ==>
              (CompareCells(env, op, Ints(i), Ints(j)) == Ok(Related(op, i, j)) <==> IsInt32(i - j))
  {
    WrapsSign(i - j);
  }

  lemma WrapsSign(n: int)
    requires -TWO32 < n < TWO32
    ensures Wrap32(n) == 0 <==> n == 0
    ensures n != 0 ==> (IsInt32(n) <==> (Wrap32(n) < 0 <==> n < 0))
  {
    if n >= TWO31 {
      assert Wrap32(n) == n - TWO32;
    } else if n < -TWO31 {
      assert Wrap32(n) == n + TWO32;
    }
  }

  // ---------- in a statement ----------

  /** The two sides of a comparison are integers that `compare` puts in order. */
  ghost predicate OnInts(env: Env, tables: seq<Table>, records: seq<Record>, u: FilterUnit)
    requires |records| == |tables|
  {
    var l, r := Operand(tables, records, u.left), Operand(tables, records, u.right);
    && u.comp != NO_OP && l.Ok? && l.value.Ints? && r.Ok? && r.value.Ints?
    && Orders(env.compare(l.value, r.value), l.value.i, r.value.i)
  }

  function IntAt(tables: seq<Table>, records: seq<Record>, o: FilterObj): int
    requires |records| == |tables|
  {
    var c := Operand(tables, records, o);
    if c.Ok? && c.value.Ints? then c.value.i else 0
  }

  predicate RelationsHold(tables: seq<Table>, records: seq<Record>, units: seq<FilterUnit>)
    requires |records| == |tables|
  {
    forall u :: u in units ==> Related(u.comp, IntAt(tables, records, u.left), IntAt(tables, records, u.right))
  }

  lemma SatisfiesIsRelation(env: Env, tables: seq<Table>, records: seq<Record>, units: seq<FilterUnit>)
    requires |records| == |tables| && forall u :: u in units ==> OnInts(env, tables, records, u)
    ensures Satisfies(env, tables, records, units) <==> RelationsHold(tables, records, units)
  {
    forall u | u in units
      ensures CompareCells(env, u.comp, Operand(tables, records, u.left).value, Operand(tables, records, u.right).value)
           == Ok(Related(u.comp, IntAt(tables, records, u.left), IntAt(tables, records, u.right)))
    {
      assert OnInts(env, tables, records, u);
      IntsRelated(env, u.comp, IntAt(tables, records, u.left), IntAt(tables, records, u.right));
    }
  }

  /** The rows of the combinations that stand in the relations of the WHERE clause. */
  function RowsRelated(stmt: SelectStmt, choices: seq<seq<Record>>): seq<seq<Result<Cell>>>
    requires forall i :: 0 <= i < |choices| ==> |choices[i]| == |stmt.tables|
  {
    if choices == [] then [] else
    (if RelationsHold(stmt.tables, choices[0], stmt.filterUnits)
     then [OutputRow(stmt.tables, choices[0], stmt.queryFields)] else [])
    + RowsRelated(stmt, choices[1..])
  }

  lemma {:induction false} AnswerIsRelated(env: Env, stmt: SelectStmt, choices: seq<seq<Record>>)
    requires forall i :: 0 <= i < |choices| ==> |choices[i]| == |stmt.tables|
    requires forall i, u :: 0 <= i < |choices| && u in stmt.filterUnits ==> OnInts(env, stmt.tables, choices[i], u)
    ensures Answer(env, stmt, choices) == RowsRelated(stmt, choices)
  {
    if choices != [] {
      SatisfiesIsRelation(env, stmt.tables, choices[0], stmt.filterUnits);
      AnswerIsRelated(env, stmt, choices[1..]);
    }
  }

  /** Where all comparisons are between integers that `compare` puts in order, the answer has the
      rows of exactly the combinations in the relations the operators name. */
  lemma AnswerOnInts(env: Env, stmt: SelectStmt)
    requires forall c, u :: c in Combinations(stmt.tables) && u in stmt.filterUnits ==>
               |c| == |stmt.tables| && OnInts(env, stmt.tables, c, u)
    ensures (CombinationLengths(stmt.tables);
             SqlAnswer(env, stmt) == RowsRelated(stmt, Combinations(stmt.tables)))
  {
    CombinationLengths(stmt.tables);
    AnswerIsRelated(env, stmt, Combinations(stmt.tables));
  }

  /** `field op literal` with the code's comparison: the combinations kept are those whose integer
      stands in the relation to the literal, where no integer is too far from it for the `int` of
      their difference. */
  lemma FieldAgainstLiteral(env: Env, stmt: SelectStmt, f: Field, op: CompOp, k: int)
    requires ComparesAsCode(env) && op != NO_OP && IsInt32(k)
    requires stmt.filterUnits == [FilterUnit(op, Attr(f), Literal(Ints(k)))]
    requires forall c :: c in Combinations(stmt.tables) ==> |c| == |stmt.tables| && NearInt(stmt.tables, c, f, k)
    ensures (CombinationLengths(stmt.tables);
             SqlAnswer(env, stmt) == RowsRelated(stmt, Combinations(stmt.tables)))
    ensures forall c :: c in Combinations(stmt.tables) ==>
              (RelationsHold(stmt.tables, c, stmt.filterUnits) <==>
               Related(op, IntAt(stmt.tables, c, Attr(f)), k))
  {
    var unit := FilterUnit(op, Attr(f), Literal(Ints(k)));
    forall c, u | c in Combinations(stmt.tables) && u in stmt.filterUnits
      ensures |c| == |stmt.tables| && OnInts(env, stmt.tables, c, u)
    {
      assert u == unit && NearInt(stmt.tables, c, f, k);
      IntsOrdered(Lookup(stmt.tables, c, CellSpec(f.table, f.name)).value.i, k);
    }
    AnswerOnInts(env, stmt);
    assert unit in stmt.filterUnits;
  }

  predicate NearInt(tables: seq<Table>, records: seq<Record>, f: Field, k: int)
    requires |records| == |tables|
  {
    var c := Lookup(tables, records, CellSpec(f.table, f.name));
    c.Ok? && c.value.Ints? && IsInt32(c.value.i) && IsInt32(c.value.i - k)
  }
}
