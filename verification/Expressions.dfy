/** Cells, tuples and the expression tree, with its evaluator.

    Everything the evaluator takes from storage or from `TupleCell` conversions is a
    parameter, gathered in `Env`: how two cells compare (`TupleCells` has the source's own
    comparison), and which records an index scanner returns for a key. */
module Expressions {

  datatype RC = SUCCESS | RECORD_EOF | NOTFOUND | INTERNAL | INVALID_ARGUMENT | GENERIC_ERROR

  datatype Result<+T> = Ok(value: T) | Err(rc: RC)

  datatype AttrType = UNDEFINED | CHARS | INTS | FLOATS | BOOLEANS

  datatype Cell = Undefined | Chars(s: string) | Ints(i: int) | Floats(f: real) | Booleans(b: bool)

  type Record = seq<Cell>

  /** A stored table: its column names, its records in scan order, and the indexed columns. */
  datatype Table = Table(name: string, fields: seq<string>, rows: seq<Record>, indexed: set<string>)

  datatype Field = Field(table: string, name: string, attrType: AttrType)

  /** What the operators ask of storage: to make a scanner, and to read on with `left` records or
      entries still to come, or fetch the record at a position. */
  datatype Access =
    | OpenTable(table: Table)
    | OpenIndex(table: Table, column: string, key: Cell)
    | ReadRecord(table: Table, left: nat)
    | ReadEntry(table: Table, column: string, key: Cell, left: nat)
    | FetchRecord(table: Table, position: nat)

  /** `indexScan(t, f, key)` lists the positions in `t.rows` that the scanner of the index on
      column `f` yields for the closed range [key, key]; `storage` gives the code of each access. */
  datatype Env = Env(compare: (Cell, Cell) -> int, indexScan: (Table, string, Cell) -> seq<nat>,
                     storage: Access -> RC)

  const EPSILON := 0.000001

  /** A string counts as true unless it is empty: the numbers tried first can only say true. */
  function GetBoolean(env: Env, c: Cell): bool {
    match c
    case Chars(s) => s != ""
    case Ints(i) => i != 0
    case Floats(f) => f >= EPSILON || f <= -EPSILON
    case Booleans(b) => b
    case Undefined => false
  }

  function TypeOf(c: Cell): AttrType {
    match c
    case Undefined => UNDEFINED
    case Chars(_) => CHARS
    case Ints(_) => INTS
    case Floats(_) => FLOATS
    case Booleans(_) => BOOLEANS
  }

  // ---------- tuples ----------

  datatype CellSpec = CellSpec(table: string, field: string)

  datatype Tuple =
    | RowTuple(table: Table, record: Record)
    | JoinedTuple(left: Tuple, right: Tuple)
    | ProjectTuple(specs: seq<CellSpec>, tuple: Tuple)

  /** The position of the first column called `name`, or |fields|. */
  function ColumnOf(fields: seq<string>, name: string): (i: nat)
    ensures i <= |fields|
    ensures i < |fields| ==> fields[i] == name
    ensures forall k :: 0 <= k < i ==> fields[k] != name
  {
    if fields == [] then 0
    else if fields[0] == name then 0
    else 1 + ColumnOf(fields[1..], name)
  }

  function FindCell(t: Tuple, spec: CellSpec): (r: Result<Cell>)
    ensures r.Err? ==> r.rc == NOTFOUND
  {
    match t
    case RowTuple(table, record) =>
      if spec.table != table.name then Err(NOTFOUND)
      else
        var i := ColumnOf(table.fields, spec.field);
        if i == |table.fields| then Err(NOTFOUND)
        else if i < |record| then Ok(record[i]) else Ok(Undefined)
    case JoinedTuple(left, right) =>
      var c := FindCell(left, spec);
      if c == Err(NOTFOUND) then FindCell(right, spec) else c
    case ProjectTuple(_, tuple) => FindCell(tuple, spec)
  }

  // ---------- expressions ----------

  datatype CompOp = EQUAL_TO | LESS_EQUAL | NOT_EQUAL | LESS_THAN | GREAT_EQUAL | GREAT_THAN | NO_OP

  datatype ConjunctionType = AND | OR

  datatype Expr =
    | FieldExpr(field: Field)
    | ValueExpr(cell: Cell)
    | CastExpr(child: Expr, castType: AttrType)
    | ComparisonExpr(comp: CompOp, left: Expr, right: Expr)
    | ConjunctionExpr(conj: ConjunctionType, children: seq<Expr>)

  function ValueType(e: Expr): AttrType {
    match e
    case FieldExpr(f) => f.attrType
    case ValueExpr(c) => TypeOf(c)
    case CastExpr(_, ty) => ty
    case ComparisonExpr(_, _, _) => BOOLEANS
    case ConjunctionExpr(_, _) => BOOLEANS
  }

  function CompareCells(env: Env, comp: CompOp, l: Cell, r: Cell): (res: Result<bool>)
    ensures res.Err? <==> comp == NO_OP
    ensures res.Err? ==> res.rc == GENERIC_ERROR
  {
    var c := env.compare(l, r);
    match comp
    case EQUAL_TO => Ok(c == 0)
    case LESS_EQUAL => Ok(c <= 0)
    case NOT_EQUAL => Ok(c != 0)
    case LESS_THAN => Ok(c < 0)
    case GREAT_EQUAL => Ok(c >= 0)
    case GREAT_THAN => Ok(c > 0)
    case NO_OP => Err(GENERIC_ERROR)
  }

  function Eval(env: Env, e: Expr, t: Tuple): (r: Result<Cell>)
    ensures r.Err? ==> r.rc != SUCCESS && r.rc != RECORD_EOF
    decreases e, 0
  {
    match e
    case FieldExpr(f) => FindCell(t, CellSpec(f.table, f.name))
    case ValueExpr(c) => Ok(c)
    case CastExpr(child, ty) =>
      var c := Eval(env, child, t);
      if c.Err? || ValueType(child) == ty then c
      else if ty == BOOLEANS then Ok(Booleans(GetBoolean(env, c.value)))
      else Err(INTERNAL)
    case ComparisonExpr(comp, left, right) =>
      var l := Eval(env, left, t);
      if l.Err? then l else
      var r := Eval(env, right, t);
      if r.Err? then r else
      (match CompareCells(env, comp, l.value, r.value)
       case Ok(b) => Ok(Booleans(b))
       case Err(rc) => Err(rc))
    case ConjunctionExpr(conj, children) =>
      if children == [] then Ok(Booleans(true)) else EvalChildren(env, conj, children, t)
  }

  /** The loop of `ConjunctionExpr::get_value`: stop at the first error or deciding child. */
  function EvalChildren(env: Env, conj: ConjunctionType, children: seq<Expr>, t: Tuple): (r: Result<Cell>)
    ensures r.Err? ==> r.rc != SUCCESS && r.rc != RECORD_EOF
    decreases children, 1
  {
    if children == [] then Ok(Booleans(conj.AND?)) else
    var c := Eval(env, children[0], t);
    if c.Err? then c else
    var v := GetBoolean(env, c.value);
    if v == conj.OR? then Ok(Booleans(v)) else EvalChildren(env, conj, children[1..], t)
  }

  /** A filter keeps a tuple when its expression evaluates without error to a true cell. */
  predicate Holds(env: Env, e: Expr, t: Tuple) {
    var c := Eval(env, e, t);
    c.Ok? && GetBoolean(env, c.value)
  }

  predicate AllHold(env: Env, es: seq<Expr>, t: Tuple) {
    forall i :: 0 <= i < |es| ==> Holds(env, es[i], t)
  }

  /** The loop of `ConjunctionExpr::get_value`, as the source writes it. */
  method GetConjunctionValue(env: Env, conj: ConjunctionType, children: seq<Expr>, t: Tuple)
    returns (cell: Result<Cell>)
    ensures cell == Eval(env, ConjunctionExpr(conj, children), t)
  {
    if children == [] { return Ok(Booleans(true)); }
    for i := 0 to |children|
      invariant EvalChildren(env, conj, children[i..], t) == EvalChildren(env, conj, children, t)
    {
      var tmp := Eval(env, children[i], t);
      if tmp.Err? { return tmp; }
      var value := GetBoolean(env, tmp.value);
      if (conj.AND? && !value) || (conj.OR? && value) {
        return Ok(Booleans(value));
      }
    }
    return Ok(Booleans(conj.AND?));
  }

  /** An AND lets a tuple through exactly when every child does, whatever errors its children
      raise: an error in one child and an earlier false child both drop the tuple. */
  lemma {:induction false} AndHolds(env: Env, es: seq<Expr>, t: Tuple)
    ensures Holds(env, ConjunctionExpr(AND, es), t) <==> AllHold(env, es, t)
  {
    if es != [] {
      ChildrenHold(env, es, t);
    }
  }

  lemma {:induction false} ChildrenHold(env: Env, es: seq<Expr>, t: Tuple)
    ensures EvalChildren(env, AND, es, t).Ok? && GetBoolean(env, EvalChildren(env, AND, es, t).value)
            <==> AllHold(env, es, t)
  {
    if es != [] {
      ChildrenHold(env, es[1..], t);
      assert es == [es[0]] + es[1..];
    }
  }

  // ---------- sizes ----------

  /** The number of nodes of an expression tree. */
  function Size(e: Expr): (n: nat)
    ensures n >= 1
    decreases e, 0
  {
    match e
    case FieldExpr(_) => 1
    case ValueExpr(_) => 1
    case CastExpr(child, _) => 1 + Size(child)
    case ComparisonExpr(_, l, r) => 1 + Size(l) + Size(r)
    case ConjunctionExpr(_, cs) => 1 + SizeAll(cs)
  }

  function SizeAll(es: seq<Expr>): nat
    decreases es, 1
  {
    if es == [] then 0 else Size(es[0]) + SizeAll(es[1..])
  }

  lemma {:induction false} SizeAllConcat(a: seq<Expr>, b: seq<Expr>)
    ensures SizeAll(a + b) == SizeAll(a) + SizeAll(b)
  {
    if a == [] {
      assert a + b == b;
    } else {
      assert (a + b)[1..] == a[1..] + b;
      SizeAllConcat(a[1..], b);
    }
  }
}
