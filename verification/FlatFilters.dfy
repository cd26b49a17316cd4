/** The filters the planner builds: one flat AND of comparisons between fields and literals.

    The conjunction rule replaces an AND that holds a false constant by its FIRST remaining
    child, not by the false constant. `Replacement` predicts that child, `Outcome` is the filter
    the rewritten plan ends up applying, and `OutcomeExact` says when this is the filter that
    was asked for. */
module FlatFilters {

  import opened Wrappers
  import opened Expressions
  import opened ExprRewriting

  predicate IsAtom(e: Expr) { e.FieldExpr? || e.ValueExpr? }

  predicate IsComparison(e: Expr) {
    e.ComparisonExpr? && e.comp != NO_OP && IsAtom(e.left) && IsAtom(e.right)
  }

  predicate IsLeaf(e: Expr) { IsComparison(e) || BoolConstant(e).Some? }

  predicate AllComparisons(cs: seq<Expr>) { forall i :: 0 <= i < |cs| ==> IsComparison(cs[i]) }

  predicate AllFolded(env: Env, cs: seq<Expr>) {
    forall i :: 0 <= i < |cs| ==> IsLeaf(cs[i]) && TryGetValue(env, cs[i]).None?
  }

  /** A child list is folded all at once, so it never mixes literal comparisons with the
      constants they fold to. */
  predicate IsFlat(env: Env, e: Expr) {
    || IsLeaf(e)
    || (e.ConjunctionExpr? && e.conj.AND? && (AllComparisons(e.children) || AllFolded(env, e.children)))
  }

  /** The truth value of a leaf that needs no tuple: a boolean literal or a comparison of two
      literals. */
  function Constant(env: Env, e: Expr): Option<bool> {
    if e.ValueExpr? then BoolConstant(e) else TryGetValue(env, e)
  }

  predicate HasFalse(env: Env, cs: seq<Expr>) {
    exists i :: 0 <= i < |cs| && Constant(env, cs[i]) == Some(false)
  }

  /** The child that takes the place of an AND holding a false constant: its first child that
      is not constant true. */
  function Replacement(env: Env, cs: seq<Expr>): (r: Option<Expr>)
    ensures r.Some? <==> HasFalse(env, cs)
  {
    if cs == [] then None else
    assert cs == [cs[0]] + cs[1..];
    assert HasFalse(env, cs) <==> Constant(env, cs[0]) == Some(false) || HasFalse(env, cs[1..]) by {
      if HasFalse(env, cs[1..]) {
        var i :| 0 <= i < |cs[1..]| && Constant(env, cs[1..][i]) == Some(false);
        assert cs[i + 1] == cs[1..][i];
      }
    }
    if Constant(env, cs[0]) == Some(true) then Replacement(env, cs[1..])
    else if HasFalse(env, cs) then Some(cs[0])
    else None
  }

  /** Whether the rewritten filter keeps `t`. */
  predicate Outcome(env: Env, e: Expr, t: Tuple) {
    if e.ConjunctionExpr? then
      match Replacement(env, e.children)
      case Some(f) => Holds(env, f, t)
      case None => AllHold(env, e.children, t)
    else Holds(env, e, t)
  }

  predicate FalseBefore(env: Env, cs: seq<Expr>, i: nat) {
    exists j :: 0 <= j < i && j < |cs| && Constant(env, cs[j]) == Some(false)
  }

  /** The guard a caller can check on the filter alone: a child that needs a tuple never comes
      before the first false constant. */
  predicate FalseComesFirst(env: Env, cs: seq<Expr>) {
    forall i, k :: 0 <= i < k < |cs| && Constant(env, cs[i]).None? && Constant(env, cs[k]) == Some(false) ==>
      FalseBefore(env, cs, i)
  }

  // ---------- what the rules do to flat filters ----------

  /** With constants already folded, the scan drops the true ones and absorbs at a false one. */
  lemma {:induction false} ScanFolded(env: Env, kept: seq<Expr>, rest: seq<Expr>)
    requires AllFolded(env, kept) && AllFolded(env, rest)
    requires forall i :: 0 <= i < |kept| ==> Constant(env, kept[i]).None?
    ensures var s := ScanChildren(AND, kept, rest);
            && (s.Absorbed? <==> HasFalse(env, rest))
            && (s.Absorbed? ==> s.front == if kept == [] then Replacement(env, rest).value else kept[0])
            && (s.Kept? ==>
                  && AllFolded(env, s.kept)
                  && (forall i :: 0 <= i < |s.kept| ==> Constant(env, s.kept[i]).None?)
                  && (forall t :: AllHold(env, s.kept, t) <==> AllHold(env, kept, t) && AllHold(env, rest, t)))
    decreases |rest|
  {
    if rest != [] {
      var c, tail := rest[0], rest[1..];
      assert rest == [c] + tail;
      assert forall i :: 0 <= i < |tail| ==> tail[i] == rest[i + 1];
      assert BoolConstant(c) == Constant(env, c);
      forall t ensures AllHold(env, rest, t) <==> Holds(env, c, t) && AllHold(env, tail, t) {
        AllHoldConcat(env, [c], tail, t);
        assert AllHold(env, [c], t) <==> Holds(env, [c][0], t);
      }
      if BoolConstant(c).None? {
        ScanFolded(env, kept + [c], tail);
        forall t ensures AllHold(env, kept + [c], t) <==> AllHold(env, kept, t) && Holds(env, c, t) {
          AllHoldConcat(env, kept, [c], t);
          assert AllHold(env, [c], t) <==> Holds(env, [c][0], t);
        }
        assert HasFalse(env, rest) <==> HasFalse(env, tail) by {
          if HasFalse(env, rest) {
            var i :| 0 <= i < |rest| && Constant(env, rest[i]) == Some(false);
            assert tail[i - 1] == rest[i];
          }
        }
      } else if BoolConstant(c) == Some(true) {
        ScanFolded(env, kept, tail);
        assert forall t :: Holds(env, c, t);
        assert HasFalse(env, rest) <==> HasFalse(env, tail) by {
          if HasFalse(env, rest) {
            var i :| 0 <= i < |rest| && Constant(env, rest[i]) == Some(false);
            assert tail[i - 1] == rest[i];
          }
        }
      }
    }
  }

  lemma {:induction false} ScanComparisons(kept: seq<Expr>, rest: seq<Expr>)
    requires AllComparisons(rest)
    ensures ScanChildren(AND, kept, rest) == Kept(kept + rest)
    decreases |rest|
  {
    if rest == [] {
      assert kept + rest == kept;
    } else {
      assert kept + [rest[0]] + rest[1..] == kept + rest;
      ScanComparisons(kept + [rest[0]], rest[1..]);
    }
  }

  /** A leaf becomes its constant, or stays. */
  lemma RewriteLeaf(env: Env, e: Expr)
    requires IsLeaf(e)
    ensures var r := RewriteExpr(env, e);
            && IsLeaf(r.0) && TryGetValue(env, r.0).None? && r.1 == TryGetValue(env, e).Some?
            && Constant(env, r.0) == Constant(env, e)
            && (!r.1 ==> r.0 == e)
            && (forall t :: Holds(env, r.0, t) <==> Holds(env, e, t))
  {
    if e.ComparisonExpr? && TryGetValue(env, e).None? {
      assert RewriteExpr(env, e.left) == (e.left, false);
      assert RewriteExpr(env, e.right) == (e.right, false);
    } else if e.ComparisonExpr? {
      forall t { ConstantHolds(env, e, t); }
    }
  }

  /** A constant leaf keeps every tuple or none. */
  lemma ConstantHolds(env: Env, e: Expr, t: Tuple)
    requires IsLeaf(e) && Constant(env, e).Some?
    ensures Holds(env, e, t) == Constant(env, e).value
  {
    if e.ComparisonExpr? {
      assert Eval(env, e.left, t) == Ok(e.left.cell);
      assert Eval(env, e.right, t) == Ok(e.right.cell);
    }
  }

  /** Folding every child of an AND changes neither its constants nor the tuples it keeps. */
  lemma FoldChildren(env: Env, cs: seq<Expr>)
    requires forall i :: 0 <= i < |cs| ==> IsLeaf(cs[i])
    ensures var (cs', c) := RewriteExprs(env, cs);
            && |cs'| == |cs| && AllFolded(env, cs')
            && (!c ==> cs' == cs)
            && (forall t :: Outcome(env, ConjunctionExpr(AND, cs'), t) <==> Outcome(env, ConjunctionExpr(AND, cs), t))
  {
    var (cs', c) := RewriteExprs(env, cs);
    forall k | 0 <= k < |cs|
      ensures IsLeaf(cs'[k]) && TryGetValue(env, cs'[k]).None? && Constant(env, cs'[k]) == Constant(env, cs[k])
      ensures forall t :: Holds(env, cs'[k], t) <==> Holds(env, cs[k], t)
      ensures !c ==> cs'[k] == cs[k]
    {
      RewriteExprsAt(env, cs, k);
      RewriteLeaf(env, cs[k]);
    }
    SameReplacement(env, cs', cs);
  }

  lemma {:induction false} SameReplacement(env: Env, a: seq<Expr>, b: seq<Expr>)
    requires |a| == |b|
    requires forall k :: 0 <= k < |a| ==> Constant(env, a[k]) == Constant(env, b[k])
    requires forall k, t :: 0 <= k < |a| ==> (Holds(env, a[k], t) <==> Holds(env, b[k], t))
    ensures Replacement(env, a).Some? <==> Replacement(env, b).Some?
    ensures Replacement(env, a).Some? ==>
              forall t :: Holds(env, Replacement(env, a).value, t) <==> Holds(env, Replacement(env, b).value, t)
  {
    if a != [] {
      SameReplacement(env, a[1..], b[1..]);
      if HasFalse(env, a) {
        var i :| 0 <= i < |a| && Constant(env, a[i]) == Some(false);
        assert Constant(env, b[i]) == Some(false);
      }
      if HasFalse(env, b) {
        var i :| 0 <= i < |b| && Constant(env, b[i]) == Some(false);
        assert Constant(env, a[i]) == Some(false);
      }
    }
  }

  /** One pass keeps the filter flat and its outcome unchanged. */
  lemma RewriteFlat(env: Env, e: Expr)
    requires IsFlat(env, e)
    ensures IsFlat(env, RewriteExpr(env, e).0)
    ensures forall t :: Outcome(env, RewriteExpr(env, e).0, t) <==> Outcome(env, e, t)
  {
    if IsLeaf(e) {
      RewriteLeaf(env, e);
    } else if AllComparisons(e.children) {
      ScanComparisons([], e.children);
      assert [] + e.children == e.children;
      if |e.children| == 1 {
        assert e.children == [e.children[0]];
        assert forall t :: AllHold(env, e.children, t) <==> Holds(env, e.children[0], t);
        assert HasFalse(env, e.children) ==> Replacement(env, e.children) == Some(e.children[0]);
      } else {
        FoldChildren(env, e.children);
        assert ConjunctionExpr(AND, e.children) == e;
      }
    } else {
      RewriteFolded(env, e);
    }
  }

  lemma RewriteFolded(env: Env, e: Expr)
    requires e.ConjunctionExpr? && e.conj.AND? && AllFolded(env, e.children)
    ensures IsFlat(env, RewriteExpr(env, e).0)
    ensures IsClean(env, RewriteExpr(env, e).0)
    ensures forall t :: Outcome(env, RewriteExpr(env, e).0, t) <==> Outcome(env, e, t)
  {
    ScanFolded(env, [], e.children);
    match ScanChildren(AND, [], e.children)
    case Absorbed(f) => RewriteAbsorbed(env, e, f);
    case Kept(cs) => RewriteKept(env, e, cs);
  }

  lemma RewriteAbsorbed(env: Env, e: Expr, f: Expr)
    requires e.ConjunctionExpr? && e.conj.AND? && AllFolded(env, e.children)
    requires ScanChildren(AND, [], e.children) == Absorbed(f) && Replacement(env, e.children) == Some(f)
    ensures IsFlat(env, RewriteExpr(env, e).0)
    ensures IsClean(env, RewriteExpr(env, e).0)
    ensures forall t :: Outcome(env, RewriteExpr(env, e).0, t) <==> Outcome(env, e, t)
  {
    ReplacementIn(env, e.children);
    var i :| 0 <= i < |e.children| && e.children[i] == f;
    RewriteLeafTail(env, f);
  }

  lemma RewriteKept(env: Env, e: Expr, cs: seq<Expr>)
    requires e.ConjunctionExpr? && e.conj.AND? && AllFolded(env, e.children)
    requires ScanChildren(AND, [], e.children) == Kept(cs) && AllResidual(env, cs)
    requires !HasFalse(env, e.children)
    requires forall t :: AllHold(env, cs, t) <==> AllHold(env, e.children, t)
    ensures IsFlat(env, RewriteExpr(env, e).0)
    ensures IsClean(env, RewriteExpr(env, e).0)
    ensures forall t :: Outcome(env, RewriteExpr(env, e).0, t) <==> Outcome(env, e, t)
  {
    if |cs| == 1 {
      assert forall t :: AllHold(env, cs, t) <==> Holds(env, cs[0], t);
    } else {
      ResidualStays(env, cs);
    }
  }

  /** After an unreported replacement the same pass goes on below a leaf, and finds nothing. */
  lemma RewriteLeafTail(env: Env, f: Expr)
    requires IsLeaf(f) && TryGetValue(env, f).None?
    ensures f.ComparisonExpr? ==> RewriteExpr(env, f.left) == (f.left, false) && RewriteExpr(env, f.right) == (f.right, false)
  {
  }

  lemma {:induction false} ReplacementIn(env: Env, cs: seq<Expr>)
    requires HasFalse(env, cs)
    ensures Replacement(env, cs).Some? && Replacement(env, cs).value in cs
    ensures Constant(env, Replacement(env, cs).value) != Some(true)
  {
    if Constant(env, cs[0]) == Some(true) {
      var i :| 0 <= i < |cs| && Constant(env, cs[i]) == Some(false);
      assert cs[1..][i - 1] == cs[i];
      ReplacementIn(env, cs[1..]);
    }
  }

  /** Two passes leave nothing constant inside the AND and no literal comparison at the top. */
  predicate IsClean(env: Env, e: Expr) {
    || (IsLeaf(e) && TryGetValue(env, e).None?)
    || (e.ConjunctionExpr? && e.conj.AND? && |e.children| != 1 && AllResidual(env, e.children))
  }

  /** Comparisons that need a tuple. */
  predicate AllResidual(env: Env, cs: seq<Expr>) {
    forall i :: 0 <= i < |cs| ==> IsComparison(cs[i]) && TryGetValue(env, cs[i]).None?
  }

  lemma TwoPassesClean(env: Env, e: Expr)
    requires IsFlat(env, e)
    ensures IsClean(env, RewriteExpr(env, RewriteExpr(env, e).0).0)
  {
    if IsLeaf(e) {
      RewriteLeaf(env, e);
      RewriteLeaf(env, RewriteExpr(env, e).0);
    } else if AllComparisons(e.children) {
      TwoPassesFold(env, e);
    } else {
      RewriteFolded(env, e);
      CleanStays(env, RewriteExpr(env, e).0);
    }
  }

  /** An AND of comparisons: the first pass folds them and the second scans them, or the first takes
      the only one and the second folds it. */
  lemma TwoPassesFold(env: Env, e: Expr)
    requires e.ConjunctionExpr? && e.conj.AND? && AllComparisons(e.children)
    ensures IsClean(env, RewriteExpr(env, RewriteExpr(env, e).0).0)
  {
    ScanComparisons([], e.children);
    assert [] + e.children == e.children;
    if |e.children| == 1 {
      RewriteLeaf(env, e.children[0]);
    } else {
      FoldChildren(env, e.children);
      RewriteFolded(env, RewriteExpr(env, e).0);
    }
  }

  lemma CleanStays(env: Env, e: Expr)
    requires IsClean(env, e)
    ensures RewriteExpr(env, e) == (e, false)
  {
    if IsLeaf(e) {
      RewriteLeaf(env, e);
    } else {
      ScanComparisons([], e.children);
      assert [] + e.children == e.children;
      assert ConjunctionRule(e) == (e, false);
      ResidualStays(env, e.children);
    }
  }

  lemma ResidualStays(env: Env, cs: seq<Expr>)
    requires AllResidual(env, cs)
    ensures RewriteExprs(env, cs) == (cs, false)
  {
    forall k | 0 <= k < |cs| ensures RewriteExpr(env, cs[k]) == (cs[k], false) && RewriteExprs(env, cs).0[k] == cs[k] {
      RewriteLeaf(env, cs[k]);
      RewriteExprsAt(env, cs, k);
    }
    assert RewriteExprs(env, cs).0 == cs;
    RewriteExprsUnchanged(env, cs);
  }

  // ---------- when the outcome is the filter asked for ----------

  /** The outcome differs from the filter on a tuple exactly when the AND holds a false constant
      and the child that takes its place is itself not constant and keeps the tuple. */
  lemma OutcomeExact(env: Env, cs: seq<Expr>, t: Tuple)
    requires AllComparisons(cs)
    ensures (Outcome(env, ConjunctionExpr(AND, cs), t) <==> Holds(env, ConjunctionExpr(AND, cs), t)) <==>
            !(HasFalse(env, cs) && Holds(env, Replacement(env, cs).value, t))
    ensures FalseComesFirst(env, cs) <==> (HasFalse(env, cs) ==> Constant(env, Replacement(env, cs).value) == Some(false))
  {
    AndHolds(env, cs, t);
    if HasFalse(env, cs) {
      var i :| 0 <= i < |cs| && Constant(env, cs[i]) == Some(false);
      ConstantHolds(env, cs[i], t);
      assert !Holds(env, cs[i], t);
      GuardIsFirst(env, cs);
    } else {
      assert FalseComesFirst(env, cs);
    }
  }

  lemma {:induction false} GuardIsFirst(env: Env, cs: seq<Expr>)
    requires HasFalse(env, cs)
    ensures FalseComesFirst(env, cs) <==> Constant(env, Replacement(env, cs).value) == Some(false)
  {
    var k :| 0 <= k < |cs| && Constant(env, cs[k]) == Some(false);
    match Constant(env, cs[0])
    case Some(true) =>
      assert cs[1..][k - 1] == cs[k];
      GuardIsFirst(env, cs[1..]);
      GuardTail(env, cs);
    case Some(false) =>
      forall i | 0 < i < |cs| ensures FalseBefore(env, cs, i) {
        assert Constant(env, cs[0]) == Some(false);
      }
    case None =>
      assert !FalseBefore(env, cs, 0);
  }

  lemma GuardTail(env: Env, cs: seq<Expr>)
    requires cs != [] && Constant(env, cs[0]) == Some(true)
    ensures FalseComesFirst(env, cs) <==> FalseComesFirst(env, cs[1..])
  {
    var tail := cs[1..];
    assert forall i :: 0 <= i < |tail| ==> tail[i] == cs[i + 1];
    forall i | 0 <= i < |tail| ensures FalseBefore(env, tail, i) <==> FalseBefore(env, cs, i + 1) {
      if FalseBefore(env, cs, i + 1) {
        var j :| 0 <= j < i + 1 && Constant(env, cs[j]) == Some(false);
        assert Constant(env, tail[j - 1]) == Some(false);
      }
      if FalseBefore(env, tail, i) {
        var j :| 0 <= j < i && Constant(env, tail[j]) == Some(false);
        assert Constant(env, cs[j + 1]) == Some(false);
      }
    }
    if FalseComesFirst(env, tail) {
      forall i, k | 0 <= i < k < |cs| && Constant(env, cs[i]).None? && Constant(env, cs[k]) == Some(false)
        ensures FalseBefore(env, cs, i)
      {
        assert Constant(env, tail[i - 1]).None? && Constant(env, tail[k - 1]) == Some(false);
        assert FalseBefore(env, tail, i - 1);
      }
    }
    if FalseComesFirst(env, cs) {
      forall i, k | 0 <= i < k < |tail| && Constant(env, tail[i]).None? && Constant(env, tail[k]) == Some(false)
        ensures FalseBefore(env, tail, i)
      {
        assert Constant(env, cs[i + 1]).None? && Constant(env, cs[k + 1]) == Some(false);
        assert FalseBefore(env, cs, i + 1);
      }
    }
  }
}
