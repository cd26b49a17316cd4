/** The open/next/close operators. One class stands for the operator classes of the source, told
    apart by `body`; the children an operator is given never change, so the tree and its
    footprint are constants and only cursors and flags are mutable. */
module Volcano {
  import opened Expressions
  import opened PhysicalPlans
  import opened Wrappers

  class PhysicalOperator {
    const body: Body
    const children: seq<PhysicalOperator>
    ghost const plan: PhysPlan
    ghost const repr: set<object>

    var started: bool
    // scans
    var cursor: nat
    var currentRecord: Record
    // nested-loop join
    var leftTupleSet: bool
    var roundDone: bool
    var rightClosed: bool

    constructor (body: Body, children: seq<PhysicalOperator>, ghost plan: PhysPlan)
      requires plan.body == body && |plan.children| == |children| && WellBuilt(plan)
      requires forall i :: 0 <= i < |children| ==>
                 children[i].Tree() && children[i].plan == plan.children[i] && children[i].AllClosed()
      requires |children| == 2 ==> children[0].repr !! children[1].repr
      ensures Tree() && AllClosed()
      ensures this.plan == plan
      ensures fresh(repr - Below(children))
    {
      this.body := body;
      this.children := children;
      this.plan := plan;
      started, cursor, currentRecord := false, 0, [];
      leftTupleSet, roundDone, rightClosed := false, true, true;
      this.repr := {this} + Below(children);
    }

    /** The footprints of at most two children. */
    static ghost function Below(children: seq<PhysicalOperator>): set<object> {
      (if |children| >= 1 then children[0].repr else {}) + (if |children| >= 2 then children[1].repr else {})
    }

    /** The operator and its children form a tree built from `plan`. */
    ghost predicate Tree()
      decreases plan
    {
      && this in repr && body == plan.body && |children| == |plan.children| && WellBuilt(plan)
      && (|children| >= 1 ==>
            children[0].plan == plan.children[0] && children[0].Tree() &&
            children[0].repr <= repr && this !in children[0].repr)
      && (|children| == 2 ==>
            children[1].plan == plan.children[1] && children[1].Tree() &&
            children[1].repr <= repr && this !in children[1].repr &&
            children[0].repr !! children[1].repr)
    }

    ghost predicate AllClosed()
      requires Tree()
      reads this, repr
      decreases plan
    {
      && !started
      && (|children| >= 1 ==> children[0].AllClosed())
      && (|children| == 2 ==> children[1].AllClosed())
    }

    /** Opened and not yet closed, so `close` may be called. */
    ghost predicate IsOpen()
      requires Tree()
      reads this, repr
      decreases plan
    {
      && started
      && (|children| >= 1 ==> children[0].IsOpen())
      && (body.NestedLoopJoin? ==>
            (if rightClosed then children[1].AllClosed() else children[1].IsOpen()))
    }

    /** `next` may be called. */
    ghost predicate Ready(env: Env)
      requires Tree()
      reads this, repr
      decreases plan
    {
      && IsOpen()
      && match body
         case TableScan(table, _) => cursor <= |table.rows|
         case IndexScan(table, column, key, _) => cursor <= |env.indexScan(table, column, key)|
         case PredicateFilter(_) => children[0].Ready(env)
         case ProjectTuples(_) => |children| == 1 ==> children[0].Ready(env)
         case NestedLoopJoin =>
           && children[0].Ready(env)
           && (!roundDone ==> leftTupleSet && !rightClosed && children[1].Ready(env))
    }

    /** The tuple `current_tuple` points at, read through the pointers of the joined and
        projected tuples. */
    ghost function Current(): Tuple
      requires Tree()
      reads this, repr
      decreases plan
    {
      match body
      case TableScan(table, _) => RowTuple(table, currentRecord)
      case IndexScan(table, _, _, _) => RowTuple(table, currentRecord)
      case PredicateFilter(_) => children[0].Current()
      case ProjectTuples(specs) =>
        if children == [] then ProjectTuple(specs, ProjectTuple([], RowTuple(Table("", [], [], {}), [])))
        else ProjectTuple(specs, children[0].Current())
      case NestedLoopJoin => JoinedTuple(children[0].Current(), children[1].Current())
    }

    /** What the operator will still give. */
    ghost function Rest(env: Env): (s: Stream)
      requires Tree() && Ready(env)
      reads this, repr
      ensures s.end != SUCCESS
      decreases plan
    {
      match body
      case TableScan(table, predicates) => RecordStream(env, table, table.rows[cursor..], predicates)
      case IndexScan(table, column, key, predicates) =>
        EntryStream(env, table, column, key, env.indexScan(table, column, key)[cursor..], predicates)
      case PredicateFilter(e) => FilterStream(env, e, children[0].Rest(env))
      case ProjectTuples(specs) =>
        if children == [] then Stream([], RECORD_EOF) else ProjectStream(specs, children[0].Rest(env))
      case NestedLoopJoin =>
        var full := Opened(env, plan.children[1]);
        if roundDone then JoinStream(children[0].Rest(env), full)
        else RoundStream(children[0].Current(), children[1].Rest(env), children[0].Rest(env), full)
    }

    // ---------- open ----------

    /** Opening anything closed makes it give its whole stream, however often it was started
        and closed before; where storage makes no scanner nothing is left open. */
    method Open(env: Env) returns (rc: RC)
      requires Tree() && AllClosed()
      modifies repr
      ensures rc == OpenCode(env, plan)
      ensures if rc == SUCCESS then Ready(env) && Rest(env) == StreamOf(env, plan) else AllClosed()
      decreases plan
    {
      rc := SUCCESS;
      match body {
      case TableScan(table, _) =>
        rc := env.storage(OpenTable(table));
        cursor := 0;
      case IndexScan(table, column, key, _) =>
        if env.storage(OpenIndex(table, column, key)) != SUCCESS {
          return INTERNAL;
        }
        cursor := 0;
      case PredicateFilter(_) =>
        rc := children[0].Open(env);
      case ProjectTuples(_) =>
        if children != [] {
          rc := children[0].Open(env);
        }
      case NestedLoopJoin =>
        rightClosed, roundDone := true, true;
        rc := children[0].Open(env);
      }
      started := rc == SUCCESS;
    }

    // ---------- next ----------

    /** One step of the stream. After a code other than SUCCESS the operator can still be
        closed. */
    method Next(env: Env) returns (rc: RC)
      requires Tree() && Ready(env)
      modifies repr
      ensures IsOpen()
      ensures old(Rest(env)).items == [] ==> rc == old(Rest(env)).end
      ensures old(Rest(env)).items != [] ==>
                && rc == SUCCESS && Ready(env)
                && Current() == old(Rest(env)).items[0]
                && Rest(env) == Stream(old(Rest(env)).items[1..], old(Rest(env)).end)
      decreases plan, 5
    {
      match body
      case TableScan(_, _) => rc := TableScanNext(env);
      case IndexScan(_, _, _, _) => rc := IndexScanNext(env);
      case PredicateFilter(_) => rc := PredicateNext(env);
      case ProjectTuples(specs) =>
        if children == [] { return RECORD_EOF; }
        rc := children[0].Next(env);
      case NestedLoopJoin => rc := JoinNext(env);
    }

    /** `filter` of both scans. */
    method PassesFilter(env: Env, predicates: seq<Expr>, t: Tuple) returns (r: Result<bool>)
      ensures r == Check(env, predicates, t)
    {
      for i := 0 to |predicates|
        invariant Check(env, predicates[i..], t) == Check(env, predicates, t)
      {
        var value := Eval(env, predicates[i], t);
        if value.Err? { return Err(value.rc); }
        if !GetBoolean(env, value.value) { return Ok(false); }
      }
      return Ok(true);
    }

    method TableScanNext(env: Env) returns (rc: RC)
      requires Tree() && Ready(env) && body.TableScan?
      modifies this`cursor, this`currentRecord
      ensures Ready(env)
      ensures old(Rest(env)).items == [] ==> rc == old(Rest(env)).end
      ensures old(Rest(env)).items != [] ==>
                && rc == SUCCESS && Current() == old(Rest(env)).items[0]
                && Rest(env) == Stream(old(Rest(env)).items[1..], old(Rest(env)).end)
      decreases plan, 0
    {
      var rows := body.table.rows;
      if cursor == |rows| { return RECORD_EOF; }
      ghost var before := Rest(env);
      rc := SUCCESS;
      while cursor < |rows|
        invariant Ready(env) && Rest(env) == before
        invariant cursor == |rows| ==> rc == RECORD_EOF
        decreases |rows| - cursor
      {
        rc := env.storage(ReadRecord(body.table, |rows| - cursor));
        if rc != SUCCESS { return rc; }
        currentRecord := rows[cursor];
        cursor := cursor + 1;
        assert rows[cursor - 1..][1..] == rows[cursor..];
        var passed := PassesFilter(env, body.predicates, RowTuple(body.table, currentRecord));
        if passed.Err? { return passed.rc; }
        if passed.value { return SUCCESS; }
        rc := RECORD_EOF;
      }
    }

    method IndexScanNext(env: Env) returns (rc: RC)
      requires Tree() && Ready(env) && body.IndexScan?
      modifies this`cursor, this`currentRecord
      ensures Ready(env)
      ensures old(Rest(env)).items == [] ==> rc == old(Rest(env)).end
      ensures old(Rest(env)).items != [] ==>
                && rc == SUCCESS && Current() == old(Rest(env)).items[0]
                && Rest(env) == Stream(old(Rest(env)).items[1..], old(Rest(env)).end)
      decreases plan, 0
    {
      var rids := env.indexScan(body.indexed, body.column, body.key);
      ghost var before := Rest(env);
      while true
        invariant Ready(env) && Rest(env) == before
        decreases |rids| - cursor
      {
        rc := env.storage(ReadEntry(body.indexed, body.column, body.key, |rids| - cursor));
        if rc != SUCCESS { return rc; }
        if cursor == |rids| { return RECORD_EOF; }
        var rid := rids[cursor];
        cursor := cursor + 1;
        assert rids[cursor - 1..][1..] == rids[cursor..];
        if rid >= |body.indexed.rows| { return INVALID_ARGUMENT; }
        rc := env.storage(FetchRecord(body.indexed, rid));
        if rc != SUCCESS { return rc; }
        currentRecord := body.indexed.rows[rid];
        var passed := PassesFilter(env, body.filters, RowTuple(body.indexed, currentRecord));
        if passed.Err? { return passed.rc; }
        if passed.value { return SUCCESS; }
      }
    }

    method PredicateNext(env: Env) returns (rc: RC)
      requires Tree() && Ready(env) && body.PredicateFilter?
      modifies repr
      ensures IsOpen()
      ensures old(Rest(env)).items == [] ==> rc == old(Rest(env)).end
      ensures old(Rest(env)).items != [] ==>
                && rc == SUCCESS && Ready(env)
                && Current() == old(Rest(env)).items[0]
                && Rest(env) == Stream(old(Rest(env)).items[1..], old(Rest(env)).end)
      decreases plan, 0
    {
      var oper := children[0];
      ghost var before := Rest(env);
      ghost var rest := oper.Rest(env);
      rc := SUCCESS;
      while true
        invariant started && oper.Ready(env) && oper.Rest(env) == rest
        invariant FilterStream(env, body.expr, rest) == before
        decreases |rest.items|
      {
        ghost var was := rest;
        rc := oper.Next(env);
        if rc != SUCCESS { return rc; }
        rest := oper.Rest(env);
        var tuple := oper.CurrentTuple();
        FilterStep(env, body.expr, was, tuple, rest);
        var cell := Eval(env, body.expr, tuple);
        if cell.Err? { return cell.rc; }
        if GetBoolean(env, cell.value) { return SUCCESS; }
      }
    }

    method JoinNext(env: Env) returns (rc: RC)
      requires Tree() && Ready(env) && body.NestedLoopJoin?
      modifies repr
      ensures IsOpen()
      ensures old(Rest(env)).items == [] ==> rc == old(Rest(env)).end
      ensures old(Rest(env)).items != [] ==>
                && rc == SUCCESS && Ready(env)
                && Current() == old(Rest(env)).items[0]
                && Rest(env) == Stream(old(Rest(env)).items[1..], old(Rest(env)).end)
      decreases plan, 4
    {
      var leftNeedStep := !leftTupleSet;
      if roundDone {
        leftNeedStep := true;
      } else {
        rc := RightInRound(env);
        if rc != SUCCESS {
          if rc == RECORD_EOF {
            leftNeedStep := true;
          } else {
            return rc;
          }
        } else {
          return rc;
        }
      }
      assert leftNeedStep;  // every way here wants a new left tuple
      rc := LeftAndRightNext(env);
    }

    /** The first half of `next`, in the middle of a round. */
    method RightInRound(env: Env) returns (rc: RC)
      requires Tree() && body.NestedLoopJoin? && Ready(env) && !roundDone
      modifies repr
      ensures IsOpen() && children[0].Ready(env)
      ensures var s := old(Rest(env));
              if rc == RECORD_EOF then roundDone && s == JoinStream(children[0].Rest(env), Opened(env, plan.children[1]))
              else if s.items == [] then rc == s.end
              else rc == SUCCESS && Ready(env) && Current() == s.items[0] && Rest(env) == Stream(s.items[1..], s.end)
      decreases plan, 2
    {
      ghost var l, ls, rs := children[0].Current(), children[0].Rest(env), children[1].Rest(env);
      ghost var full := Opened(env, plan.children[1]);
      rc := RightNext(env);
      assert children[0].Rest(env) == ls && children[0].Current() == l;
      if rs.items != [] {
        RoundStep(l, rs, ls, full);
      } else if rs.end == RECORD_EOF {
        RoundEnd(l, ls, full);
      }
    }

    /** The second half of `next`: step the left child, then take the first tuple of a round. */
    method LeftAndRightNext(env: Env) returns (rc: RC)
      requires Tree() && body.NestedLoopJoin? && IsOpen() && children[0].Ready(env) && roundDone
      modifies repr
      ensures IsOpen()
      ensures var s := JoinStream(old(children[0].Rest(env)), Opened(env, plan.children[1]));
              && (s.items == [] ==> rc == s.end)
              && (s.items != [] ==>
                    && rc == SUCCESS && Ready(env) && Current() == s.items[0]
                    && Rest(env) == Stream(s.items[1..], s.end))
      decreases plan, 3
    {
      rc := LeftNext(env);
      if rc != SUCCESS { return rc; }
      rc := FirstRightNext(env);
    }

    /** With a new left tuple in place. */
    method FirstRightNext(env: Env) returns (rc: RC)
      requires Tree() && body.NestedLoopJoin? && IsOpen() && children[0].Ready(env) && leftTupleSet && roundDone
      modifies this`roundDone, this`rightClosed, children[1].repr
      ensures IsOpen()
      ensures var full := Opened(env, plan.children[1]);
              var s := RoundStream(old(children[0].Current()), full, old(children[0].Rest(env)), full);
              && (full.items == [] ==> rc == full.end)
              && (full.items != [] ==>
                    && rc == SUCCESS && Ready(env) && s.items != [] && Current() == s.items[0]
                    && Rest(env) == Stream(s.items[1..], s.end))
      decreases plan, 2
    {
      ghost var full := Opened(env, plan.children[1]);
      ghost var l := children[0].Current();
      ghost var tail := children[0].Rest(env);
      rc := RightNext(env);
      assert children[0].Rest(env) == tail && children[0].Current() == l;
      if full.items != [] {
        RoundStep(l, full, tail, full);
      }
    }

    method LeftNext(env: Env) returns (rc: RC)
      requires Tree() && body.NestedLoopJoin? && IsOpen() && children[0].Ready(env) && roundDone
      modifies this`leftTupleSet, children[0].repr
      ensures IsOpen()
      ensures old(children[0].Rest(env)).items == [] ==> rc == old(children[0].Rest(env)).end
      ensures old(children[0].Rest(env)).items != [] ==>
                && rc == SUCCESS && leftTupleSet && children[0].Ready(env)
                && children[0].Current() == old(children[0].Rest(env)).items[0]
                && children[0].Rest(env) == Stream(old(children[0].Rest(env)).items[1..], old(children[0].Rest(env)).end)
      decreases plan, 0
    {
      rc := children[0].Next(env);
      if rc != SUCCESS { return rc; }
      leftTupleSet := true;
    }

    /** A round that is done is started again before the right child's next tuple is taken. */
    method RightNext(env: Env) returns (rc: RC)
      requires Tree() && body.NestedLoopJoin? && IsOpen() && children[0].Ready(env) && leftTupleSet
      requires !roundDone ==> !rightClosed && children[1].Ready(env)
      modifies this`roundDone, this`rightClosed, children[1].repr
      ensures IsOpen() && children[0].Ready(env)
      ensures var s := if old(roundDone) then Opened(env, plan.children[1]) else old(children[1].Rest(env));
              && (s.items == [] ==> rc == s.end && (rc == RECORD_EOF ==> roundDone))
              && (s.items != [] ==>
                    && rc == SUCCESS && !roundDone && !rightClosed && children[1].Ready(env)
                    && children[1].Current() == s.items[0]
                    && children[1].Rest(env) == Stream(s.items[1..], s.end))
      decreases plan, 1
    {
      if roundDone {
        rc := StartRound(env);
        if rc != SUCCESS { return rc; }
      }
      rc := StepRight(env);
    }

    /** The right child's next tuple, or the end of the round. */
    method StepRight(env: Env) returns (rc: RC)
      requires Tree() && body.NestedLoopJoin? && IsOpen() && !roundDone && !rightClosed && children[1].Ready(env)
      modifies this`roundDone, children[1].repr
      ensures IsOpen()
      ensures var s := old(children[1].Rest(env));
              && (s.items == [] ==> rc == s.end && (rc == RECORD_EOF ==> roundDone))
              && (s.items != [] ==>
                    && rc == SUCCESS && !roundDone && children[1].Ready(env)
                    && children[1].Current() == s.items[0]
                    && children[1].Rest(env) == Stream(s.items[1..], s.end))
      decreases plan, 0
    {
      rc := children[1].Next(env);
      if rc == RECORD_EOF { roundDone := true; }
    }

    /** Close the right child if it is open, then open it: it is never opened twice in a row. */
    method StartRound(env: Env) returns (rc: RC)
      requires Tree() && body.NestedLoopJoin? && IsOpen() && roundDone
      modifies this`roundDone, this`rightClosed, children[1].repr
      ensures rc == OpenCode(env, plan.children[1]) && IsOpen()
      ensures if rc != SUCCESS then roundDone
              else !roundDone && !rightClosed
                   && children[1].Ready(env) && children[1].Rest(env) == StreamOf(env, plan.children[1])
      decreases plan, 0
    {
      var right := children[1];
      if !rightClosed {
        rc := right.Close();
        rightClosed := true;
        if rc != SUCCESS { return rc; }
      }
      rc := right.Open(env);
      if rc != SUCCESS { return rc; }
      rightClosed := false;
      roundDone := false;
    }

    method CurrentTuple() returns (t: Tuple)
      requires Tree()
      ensures t == Current()
      decreases plan
    {
      match body
      case TableScan(table, _) => return RowTuple(table, currentRecord);
      case IndexScan(table, _, _, _) => return RowTuple(table, currentRecord);
      case PredicateFilter(_) => t := children[0].CurrentTuple();
      case ProjectTuples(specs) =>
        t := ProjectTuple([], RowTuple(Table("", [], [], {}), []));
        if children != [] { t := children[0].CurrentTuple(); }
        t := ProjectTuple(specs, t);
      case NestedLoopJoin =>
        var l := children[0].CurrentTuple();
        var r := children[1].CurrentTuple();
        return JoinedTuple(l, r);
    }

    // ---------- close ----------

    /** Closes every operator below that is open. It succeeds, since closing either scan always
        does. */
    method Close() returns (rc: RC)
      requires Tree() && IsOpen()
      modifies repr
      ensures rc == SUCCESS && AllClosed()
      decreases plan, 1
    {
      rc := SUCCESS;
      match body {
      case TableScan(_, _) =>
      case IndexScan(_, _, _, _) =>
      case PredicateFilter(_) =>
        var ignored := children[0].Close();
      case ProjectTuples(_) =>
        if children != [] { var ignored := children[0].Close(); }
      case NestedLoopJoin =>
        rc := JoinClose();
      }
      started := false;
    }

    method JoinClose() returns (rc: RC)
      requires Tree() && IsOpen() && body.NestedLoopJoin?
      modifies this`rightClosed, children[0].repr, children[1].repr
      ensures rc == SUCCESS && children[0].AllClosed() && children[1].AllClosed()
      decreases plan, 0
    {
      rc := children[0].Close();
      if !rightClosed {
        rc := children[1].Close();
        if rc == SUCCESS { rightClosed := true; }
      }
    }
  }

  /** A client's loop: take tuples while `next` succeeds. */
  method Fetch(oper: PhysicalOperator, env: Env) returns (rows: seq<Tuple>, rc: RC)
    requires oper.Tree() && oper.Ready(env)
    modifies oper.repr
    ensures Stream(rows, rc) == old(oper.Rest(env))
    ensures oper.IsOpen()
  {
    rows := [];
    ghost var all := oper.Rest(env);
    ghost var rest := all;
    while true
      invariant oper.Ready(env) && oper.Rest(env) == rest
      invariant all == Prepend(rows, rest)
      decreases |rest.items|
    {
      var t;
      rc, t := Advance(oper, env);
      if rc != SUCCESS {
        assert rows + [] == rows;
        return;
      }
      PrependTwice(rows, t.value, oper.Rest(env));
      rest := oper.Rest(env);
      rows := rows + [t.value];
    }
  }

  lemma PrependTwice(rows: seq<Tuple>, t: Tuple, s: Stream)
    ensures Prepend(rows, Prepend([t], s)) == Prepend(rows + [t], s)
  {
    assert rows + ([t] + s.items) == rows + [t] + s.items;
  }

  lemma HeadAndTail(s: Stream)
    requires s.items != []
    ensures s == Prepend([s.items[0]], Stream(s.items[1..], s.end))
  {
  }

  /** `next`, then `current_tuple` if that succeeds. */
  method Advance(oper: PhysicalOperator, env: Env) returns (rc: RC, t: Option<Tuple>)
    requires oper.Tree() && oper.Ready(env)
    modifies oper.repr
    ensures oper.IsOpen()
    ensures rc != SUCCESS ==> t == None && old(oper.Rest(env)) == Stream([], rc)
    ensures rc == SUCCESS ==>
              t.Some? && oper.Ready(env) && old(oper.Rest(env)) == Prepend([t.value], oper.Rest(env))
  {
    ghost var rest := oper.Rest(env);
    rc := oper.Next(env);
    if rc != SUCCESS {
      return rc, None;
    }
    var tuple := oper.CurrentTuple();
    HeadAndTail(rest);
    t := Some(tuple);
  }

  method Drain(oper: PhysicalOperator, env: Env) returns (rows: seq<Tuple>, rc: RC)
    requires oper.Tree() && oper.AllClosed()
    modifies oper.repr
    ensures Stream(rows, rc) == Opened(env, oper.plan)
    ensures oper.AllClosed()
  {
    rc := oper.Open(env);
    if rc != SUCCESS {
      return [], rc;
    }
    rows, rc := Fetch(oper, env);
    var ignored := oper.Close();
  }
}
