/**
  Plan rewriting: src/observer/sql/optimizer/rewriter.cpp, predicate_rewrite.cpp,
  predicate_pushdown_rewriter.cpp and the loop in optimize_stage.cpp.
 */
module PlanRewriter {
  import opened Options
  import opened Expressions
  import opened LogicalPlan
  import opened ExprRewriter

  /** Operators plus the nodes of their expressions; predicates already in a table scan do not count. */
  function OpSize(op: Op): (n: nat)
    ensures n >= 1
    decreases op, 1
  {
    1 + SizeAll(op.exprs) + OpSizeAll(op.children)
  }

  function OpSizeAll(ops: seq<Op>): nat
    decreases ops, 0
  {
    if ops == [] then 0 else OpSize(ops[0]) + OpSizeAll(ops[1..])
  }

  lemma OpSizeOne(op: Op)
    ensures OpSizeAll([op]) == OpSize(op)
  {
    assert [op][1..] == [];
  }

  lemma SizeOne(e: Expr)
    ensures SizeAll([e]) == Size(e)
  {
    assert [e][1..] == [];
  }

  datatype RewrittenOp = RewrittenOp(op: Op, changed: bool)

  predicate Shrinks(r: RewrittenOp, op: Op) {
    OpSize(r.op) <= OpSize(op) && (r.changed ==> OpSize(r.op) < OpSize(op))
  }

  // --- Expression pass over the whole tree ---

  function ExprPass(env: Env, op: Op): (r: RewrittenOp)
    ensures Shrinks(r, op)
    decreases op, 1
  {
    var es := RewriteAll(env, op.exprs);
    var cs := ExprPassAll(env, op.children);
    RewrittenOp(Op(op.kind, es.0, cs.0), es.1 || cs.1)
  }

  function ExprPassAll(env: Env, ops: seq<Op>): (r: (seq<Op>, bool))
    ensures |r.0| == |ops|
    ensures OpSizeAll(r.0) <= OpSizeAll(ops) && (r.1 ==> OpSizeAll(r.0) < OpSizeAll(ops))
    decreases ops, 0
  {
    if ops == [] then ([], false)
    else
      var first := ExprPass(env, ops[0]);
      var rest := ExprPassAll(env, ops[1..]);
      assert ([first.op] + rest.0)[1..] == rest.0;
      ([first.op] + rest.0, first.changed || rest.1)
  }

  // --- Constant predicates ---

  /** The only child is a predicate that is one constant. */
  predicate OverConstant(op: Op) {
    && |op.children| == 1
    && op.children[0].kind.Predicate?
    && |op.children[0].exprs| == 1
    && op.children[0].exprs[0].Const?
  }

  /** A true predicate hands its children over; a false one leaves its parent without children. */
  function RemovePredicate(env: Env, op: Op): (r: RewrittenOp)
    ensures Shrinks(r, op)
  {
    if !OverConstant(op) then RewrittenOp(op, false)
    else
      var child := op.children[0];
      OpSizeOne(child);
      assert op.children == [child];
      if Truth(env, child.exprs[0].v) then RewrittenOp(op.(children := child.children), true)
      else RewrittenOp(op.(children := []), true)
  }

  // --- Pushdown into a table scan ---

  /** An equality with a field on at least one side. */
  predicate Pushable(e: Expr) {
    e.Compare? && e.comp == EqualTo && (e.left.Field? || e.right.Field?)
  }

  /** What stays of an expression, and what moves down. */
  datatype Pushed = Pushed(rest: Option<Expr>, down: seq<Expr>)

  function Opt(o: Option<Expr>): seq<Expr> {
    if o.Some? then [o.value] else []
  }

  function Collect(e: Expr): (r: Pushed)
    decreases e, 1
  {
    if e.Conj? && e.kind.And? then
      var rs := CollectAll(e.children);
      Pushed(Some(Conj(And, rs.0)), rs.1)
    else if Pushable(e) then Pushed(None, [e])
    else Pushed(Some(e), [])
  }

  function CollectAll(es: seq<Expr>): (r: (seq<Expr>, seq<Expr>))
    decreases es, 0
  {
    if es == [] then ([], [])
    else
      var first := Collect(es[0]);
      var rest := CollectAll(es[1..]);
      (Opt(first.rest) + rest.0, first.down + rest.1)
  }

  /** Nothing is lost or copied: the parts have the nodes of the whole. */
  lemma {:induction false} CollectSize(e: Expr)
    ensures SizeAll(Opt(Collect(e).rest)) + SizeAll(Collect(e).down) == Size(e)
    ensures Collect(e).rest.None? ==> Pushable(e) && Collect(e).down == [e]
    ensures Collect(e).down == [] ==> Collect(e).rest == Some(e)
    decreases e, 1
  {
    SizeOne(e);
    if e.Conj? && e.kind.And? {
      CollectAllSize(e.children);
      SizeOne(Conj(And, CollectAll(e.children).0));
    }
  }

  lemma {:induction false} CollectAllSize(es: seq<Expr>)
    ensures SizeAll(CollectAll(es).0) + SizeAll(CollectAll(es).1) == SizeAll(es)
    ensures CollectAll(es).1 == [] ==> CollectAll(es).0 == es
    decreases es, 0
  {
    if es != [] {
      var first, rest := Collect(es[0]), CollectAll(es[1..]);
      CollectSize(es[0]);
      CollectAllSize(es[1..]);
      SizeAllConcat(Opt(first.rest), rest.0);
      SizeAllConcat(first.down, rest.1);
      if CollectAll(es).1 == [] {
        assert first.down == [] && rest.1 == [];
        assert es == [es[0]] + es[1..];
      }
    }
  }

  predicate OverTable(op: Op) {
    && op.kind.Predicate?
    && |op.children| == 1 && op.children[0].kind.TableGet?
    && |op.exprs| == 1
  }

  /** The expression left in the predicate: an emptied one becomes the constant true. */
  function LeftOver(e: Expr): Expr {
    var rest := Collect(e).rest;
    if rest.Some? then rest.value else Const(Boolean(true))
  }

  /** Pushed expressions replace the predicates of the table scan. */
  function Pushdown(op: Op): (r: RewrittenOp)
    ensures Shrinks(r, op)
  {
    if !OverTable(op) then RewrittenOp(op, false)
    else
      var e, scan := op.exprs[0], op.children[0];
      var down := Collect(e).down;
      CollectSize(e);
      SizeOne(e);
      SizeOne(LeftOver(e));
      assert op.exprs == [e] && op.children == [scan];
      OpSizeOne(scan);
      var scan' := if down == [] then scan else scan.(kind := TableGet(scan.kind.table, down));
      OpSizeOne(scan');
      RewrittenOp(Op(Predicate, [LeftOver(e)], [scan']), down != [])
  }

  // --- One pass of the rewriter, and the loop ---

  function Rules(env: Env, op: Op): (r: RewrittenOp)
    ensures Shrinks(r, op)
  {
    var a := ExprPass(env, op);
    var b := RemovePredicate(env, a.op);
    var c := Pushdown(b.op);
    RewrittenOp(c.op, a.changed || b.changed || c.changed)
  }

  function RewritePlan(env: Env, op: Op): (r: RewrittenOp)
    ensures Shrinks(r, op)
    decreases OpSize(op), 0
  {
    var top := Rules(env, op);
    var cs := RewritePlans(env, top.op.children);
    RewrittenOp(top.op.(children := cs.0), top.changed || cs.1)
  }

  function RewritePlans(env: Env, ops: seq<Op>): (r: (seq<Op>, bool))
    ensures |r.0| == |ops|
    ensures OpSizeAll(r.0) <= OpSizeAll(ops) && (r.1 ==> OpSizeAll(r.0) < OpSizeAll(ops))
    decreases OpSizeAll(ops), 1, |ops|
  {
    if ops == [] then ([], false)
    else
      var first := RewritePlan(env, ops[0]);
      var rest := RewritePlans(env, ops[1..]);
      assert ([first.op] + rest.0)[1..] == rest.0;
      ([first.op] + rest.0, first.changed || rest.1)
  }

  /** Rewrite until a pass reports no change; every reported change makes the plan smaller. */
  function Optimize(env: Env, op: Op): (r: Op)
    ensures OpSize(r) <= OpSize(op)
    decreases OpSize(op)
  {
    var pass := RewritePlan(env, op);
    if pass.changed then Optimize(env, pass.op) else pass.op
  }

  // --- Pushdown keeps the filter ---

  /** Pushed expressions and the remaining predicate together are the original predicate. */
  lemma {:induction false} CollectKeeps(env: Env, e: Expr, t: Tuple)
    ensures Keep(env, e, t) == (KeepAll(env, Collect(e).down, t) && Keep(env, LeftOver(e), t))
    decreases e, 1
  {
    if e.Conj? && e.kind.And? {
      KeepAnd(env, e.children, t);
      KeepAnd(env, CollectAll(e.children).0, t);
      CollectAllKeeps(env, e.children, t);
    } else {
      assert KeepAll(env, [e], t) == Keep(env, e, t) by { assert [e][1..] == []; }
      assert Keep(env, Const(Boolean(true)), t);
    }
  }

  lemma {:induction false} CollectAllKeeps(env: Env, es: seq<Expr>, t: Tuple)
    ensures KeepAll(env, es, t) == (KeepAll(env, CollectAll(es).1, t) && KeepAll(env, CollectAll(es).0, t))
    decreases es, 0
  {
    if es != [] {
      var first, rest := Collect(es[0]), CollectAll(es[1..]);
      CollectKeeps(env, es[0], t);
      CollectAllKeeps(env, es[1..], t);
      KeepAllConcat(env, first.down, rest.1, t);
      if first.rest.Some? {
        assert ([first.rest.value] + rest.0)[1..] == rest.0;
      } else {
        assert [] + rest.0 == rest.0;
      }
    }
  }

  /** Whatever the scan filtered before, after a pushdown it filters by the predicate alone. */
  lemma PushdownRows(env: Env, db: Database, op: Op)
    requires OverTable(op) && Collect(op.exprs[0]).down != []
    ensures Rows(env, db, Pushdown(op).op) == Select(env, Scan(db, op.children[0].kind.table), op.exprs)
  {
    var e, rows := op.exprs[0], Scan(db, op.children[0].kind.table);
    var down, rest := Collect(e).down, LeftOver(e);
    assert op.exprs == [e];
    SelectTwice(env, rows, down, [rest]);
    forall t | t in rows ensures KeepAll(env, down + [rest], t) == KeepAll(env, [e], t) {
      CollectKeeps(env, e, t);
      KeepAllConcat(env, down, [rest], t);
      assert [rest][1..] == [] && [e][1..] == [];
    }
    SelectSame(env, rows, down + [rest], [e]);
  }

  /** A pushdown keeps the rows exactly when the conditions it overwrites in the scan never matter. */
  lemma PushdownExact(env: Env, db: Database, op: Op)
    requires OverTable(op) && Collect(op.exprs[0]).down != []
    ensures Rows(env, db, Pushdown(op).op) == Rows(env, db, op) <==>
      forall t :: t in Scan(db, op.children[0].kind.table) && KeepAll(env, op.exprs, t) ==>
        KeepAll(env, op.children[0].kind.predicates, t)
  {
    var scan := op.children[0];
    PushdownRows(env, db, op);
    SelectTwice(env, Scan(db, scan.kind.table), scan.kind.predicates, op.exprs);
    SelectMore(env, Scan(db, scan.kind.table), scan.kind.predicates, op.exprs);
  }

  /** What is pushed are equalities with a field on a side. */
  lemma {:induction false} PushedAre(e: Expr, p: Expr)
    requires p in Collect(e).down
    ensures p.Compare? && p.comp == EqualTo && (p.left.Field? || p.right.Field?)
    decreases e, 1
  {
    if e.Conj? && e.kind.And? { PushedAllAre(e.children, p); }
  }

  lemma {:induction false} PushedAllAre(es: seq<Expr>, p: Expr)
    requires p in CollectAll(es).1
    ensures p.Compare? && p.comp == EqualTo && (p.left.Field? || p.right.Field?)
    decreases es, 0
  {
    if p in Collect(es[0]).down { PushedAre(es[0], p); } else { PushedAllAre(es[1..], p); }
  }

  /** And each of them is pushed, whichever AND it is in: nothing is left of it. */
  lemma FieldEqualityGoes(l: Expr, r: Expr, es: seq<Expr>, i: nat)
    requires l.Field? || r.Field?
    requires i < |es| && es[i] == Compare(EqualTo, l, r)
    ensures Collect(Compare(EqualTo, l, r)) == Pushed(None, [Compare(EqualTo, l, r)])
    ensures es[i] in Collect(Conj(And, es)).down
  {
    MemberGoes(es, i);
  }

  lemma {:induction false} MemberGoes(es: seq<Expr>, i: nat)
    requires i < |es| && Collect(es[i]) == Pushed(None, [es[i]])
    ensures es[i] in CollectAll(es).1
  {
    if i > 0 { MemberGoes(es[1..], i - 1); }
  }

  // --- When a pass keeps the rows ---

  predicate ExprsSafe(env: Env, es: seq<Expr>) {
    es == [] || (WellTyped(es[0]) && Guarded(env, es[0]) && ExprsSafe(env, es[1..]))
  }

  /** The expression pass meets the guard of the conjunction rule everywhere. */
  predicate ExprPassSafe(env: Env, op: Op)
    decreases op, 1
  {
    ExprsSafe(env, op.exprs) && ExprPassSafeAll(env, op.children)
  }

  predicate ExprPassSafeAll(env: Env, ops: seq<Op>)
    decreases ops, 0
  {
    ops == [] || (ExprPassSafe(env, ops[0]) && ExprPassSafeAll(env, ops[1..]))
  }

  /** A constant predicate has at most one child; a false one is not removed from under another predicate. */
  predicate RemoveSafe(env: Env, op: Op) {
    OverConstant(op) ==>
      && |op.children[0].children| <= 1
      && (Truth(env, op.children[0].exprs[0].v) || !op.kind.Predicate?)
  }

  /** What is pushed does not overwrite anything. */
  predicate PushSafe(op: Op) {
    OverTable(op) && Collect(op.exprs[0]).down != [] ==> op.children[0].kind.predicates == []
  }

  predicate RulesSafe(env: Env, op: Op) {
    && ExprPassSafe(env, op)
    && RemoveSafe(env, ExprPass(env, op).op)
    && PushSafe(RemovePredicate(env, ExprPass(env, op).op).op)
  }

  /** Every rule that one pass applies anywhere meets its condition. */
  predicate PassSafe(env: Env, op: Op)
    decreases OpSize(op), 0
  {
    RulesSafe(env, op) && PassSafeAll(env, Rules(env, op).op.children)
  }

  predicate PassSafeAll(env: Env, ops: seq<Op>)
    decreases OpSizeAll(ops), 1, |ops|
  {
    ops == [] || (PassSafe(env, ops[0]) && PassSafeAll(env, ops[1..]))
  }

  /** Every pass of the loop is safe. */
  predicate RunSafe(env: Env, op: Op)
    decreases OpSize(op)
  {
    var pass := RewritePlan(env, op);
    PassSafe(env, op) && (pass.changed ==> RunSafe(env, pass.op))
  }

  lemma {:induction false} ExprsKept(env: Env, es: seq<Expr>, t: Tuple)
    requires ExprsSafe(env, es)
    ensures forall i :: 0 <= i < |es| ==> Eval(env, RewriteAll(env, es).0[i], t) == Eval(env, es[i], t)
  {
    if es != [] {
      RewriteSound(env, es[0], t);
      ExprsKept(env, es[1..], t);
      var r := RewriteAll(env, es).0;
      forall i | 0 <= i < |es| ensures Eval(env, r[i], t) == Eval(env, es[i], t) {
        if i > 0 { assert es[i] == es[1..][i - 1] && r[i] == RewriteAll(env, es[1..]).0[i - 1]; }
      }
    }
  }

  ghost predicate SameRows(env: Env, db: Database, xs: seq<Op>, ys: seq<Op>) {
    |xs| == |ys| && forall i :: 0 <= i < |xs| ==> Rows(env, db, xs[i]) == Rows(env, db, ys[i])
  }

  lemma RowsFromChildren(env: Env, db: Database, op: Op, cs: seq<Op>)
    requires SameRows(env, db, cs, op.children)
    ensures Rows(env, db, op.(children := cs)) == Rows(env, db, op)
  {
  }

  lemma ConsRows(env: Env, db: Database, a: Op, xs: seq<Op>, b: Op, ys: seq<Op>)
    requires Rows(env, db, a) == Rows(env, db, b) && SameRows(env, db, xs, ys)
    ensures SameRows(env, db, [a] + xs, [b] + ys)
  {
  }

  lemma {:induction false} ExprPassRows(env: Env, db: Database, op: Op)
    requires ExprPassSafe(env, op)
    ensures Rows(env, db, ExprPass(env, op).op) == Rows(env, db, op)
    decreases op, 1
  {
    var es, cs := RewriteAll(env, op.exprs).0, ExprPassAll(env, op.children).0;
    ExprPassAllRows(env, db, op.children);
    RowsFromChildren(env, db, op, cs);
    if op.kind.Predicate? && |op.exprs| == 1 && |op.children| == 1 {
      forall i, t | 0 <= i < |es| ensures Eval(env, es[i], t) == Eval(env, op.exprs[i], t) {
        ExprsKept(env, op.exprs, t);
      }
      SameFilter(env, Rows(env, db, cs[0]), es, op.exprs);
    }
  }

  lemma {:induction false} ExprPassAllRows(env: Env, db: Database, ops: seq<Op>)
    requires ExprPassSafeAll(env, ops)
    ensures SameRows(env, db, ExprPassAll(env, ops).0, ops)
    decreases ops, 0
  {
    if ops != [] {
      ExprPassRows(env, db, ops[0]);
      ExprPassAllRows(env, db, ops[1..]);
      ConsRows(env, db, ExprPass(env, ops[0]).op, ExprPassAll(env, ops[1..]).0, ops[0], ops[1..]);
      assert ops == [ops[0]] + ops[1..];
    }
  }

  /** Splicing out a true predicate and cutting off a false one. */
  lemma RemoveRows(env: Env, db: Database, op: Op)
    requires RemoveSafe(env, op)
    ensures Rows(env, db, RemovePredicate(env, op).op) == Rows(env, db, op)
  {
    if OverConstant(op) {
      var child := op.children[0];
      var c := child.exprs[0];
      assert child.exprs == [c] && op.children == [child];
      if |child.children| == 1 {
        var rows := Rows(env, db, child.children[0]);
        forall t ensures KeepAll(env, [c], t) == Truth(env, c.v) {
          assert [c][1..] == [];
          assert Eval(env, c, t) == Some(c.v);
        }
        if Truth(env, c.v) {
          SelectSame(env, rows, [c], []);
          SelectNothing(env, rows);
        } else {
          SelectNone(env, rows, [c]);
        }
      }
      assert Rows(env, db, child) == if Truth(env, c.v) && |child.children| == 1 then Rows(env, db, child.children[0]) else [];
      RemoveParent(env, db, op, child);
    }
  }

  /** The parent, when its only child delivers what that child's child does, or nothing. */
  lemma RemoveParent(env: Env, db: Database, op: Op, child: Op)
    requires op.children == [child] && |child.children| <= 1
    ensures |child.children| == 1 && Rows(env, db, child) == Rows(env, db, child.children[0]) ==>
      Rows(env, db, op.(children := child.children)) == Rows(env, db, op)
    ensures Rows(env, db, child) == [] ==> Rows(env, db, op.(children := [])) == Rows(env, db, op)
  {
    if |child.children| == 1 { assert child.children == [child.children[0]]; }
  }

  lemma PushRows(env: Env, db: Database, op: Op)
    requires PushSafe(op)
    ensures Rows(env, db, Pushdown(op).op) == Rows(env, db, op)
  {
    if OverTable(op) {
      CollectSize(op.exprs[0]);
      if Collect(op.exprs[0]).down != [] {
        PushdownRows(env, db, op);
        SelectNothing(env, Scan(db, op.children[0].kind.table));
      } else {
        assert op.exprs == [op.exprs[0]] && op.children == [op.children[0]];
        assert Pushdown(op).op == op;
      }
    }
  }

  lemma RulesRows(env: Env, db: Database, op: Op)
    requires RulesSafe(env, op)
    ensures Rows(env, db, Rules(env, op).op) == Rows(env, db, op)
  {
    var a := ExprPass(env, op).op;
    ExprPassRows(env, db, op);
    RemoveRows(env, db, a);
    PushRows(env, db, RemovePredicate(env, a).op);
  }

  /** A safe pass keeps the row sequence. */
  lemma {:induction false} PassRows(env: Env, db: Database, op: Op)
    requires PassSafe(env, op)
    ensures Rows(env, db, RewritePlan(env, op).op) == Rows(env, db, op)
    decreases OpSize(op), 0
  {
    var top := Rules(env, op).op;
    RulesRows(env, db, op);
    PassAllRows(env, db, top.children);
    RowsFromChildren(env, db, top, RewritePlans(env, top.children).0);
  }

  lemma {:induction false} PassAllRows(env: Env, db: Database, ops: seq<Op>)
    requires PassSafeAll(env, ops)
    ensures SameRows(env, db, RewritePlans(env, ops).0, ops)
    decreases OpSizeAll(ops), 1, |ops|
  {
    if ops != [] {
      PassRows(env, db, ops[0]);
      PassAllRows(env, db, ops[1..]);
      ConsRows(env, db, RewritePlan(env, ops[0]).op, RewritePlans(env, ops[1..]).0, ops[0], ops[1..]);
      assert ops == [ops[0]] + ops[1..];
    }
  }

  /** The whole loop keeps the row sequence, if every rule it applies meets its condition. */
  lemma {:induction false} OptimizeSound(env: Env, db: Database, op: Op)
    requires RunSafe(env, op)
    ensures Rows(env, db, Optimize(env, op)) == Rows(env, db, op)
    decreases OpSize(op)
  {
    PassRows(env, db, op);
    var pass := RewritePlan(env, op);
    if pass.changed { OptimizeSound(env, db, pass.op); }
  }

  // --- Changes that are not reported ---

  predicate PlanConstantFree(op: Op)
    decreases op, 1
  {
    ConstantFreeAll(op.exprs) && PlansConstantFree(op.children)
  }

  predicate PlansConstantFree(ops: seq<Op>)
    decreases ops, 0
  {
    ops == [] || (PlanConstantFree(ops[0]) && PlansConstantFree(ops[1..]))
  }

  lemma {:induction false} UnreportedExprPass(env: Env, op: Op)
    requires !ExprPass(env, op).changed
    ensures if PlanConstantFree(op) then ExprPass(env, op).op == op else OpSize(ExprPass(env, op).op) < OpSize(op)
    decreases op, 1
  {
    UnreportedChanges(env, op.exprs);
    UnreportedExprPasses(env, op.children);
  }

  lemma {:induction false} UnreportedExprPasses(env: Env, ops: seq<Op>)
    requires !ExprPassAll(env, ops).1
    ensures if PlansConstantFree(ops) then ExprPassAll(env, ops).0 == ops
            else OpSizeAll(ExprPassAll(env, ops).0) < OpSizeAll(ops)
    decreases ops, 0
  {
    if ops != [] {
      UnreportedExprPass(env, ops[0]);
      UnreportedExprPasses(env, ops[1..]);
      var r := ExprPassAll(env, ops).0;
      assert r[1..] == ExprPassAll(env, ops[1..]).0 && ops == [ops[0]] + ops[1..];
    }
  }

  /** Rules that report no change are the expression pass alone. */
  lemma UnreportedRules(env: Env, op: Op)
    requires !Rules(env, op).changed
    ensures Rules(env, op).op == ExprPass(env, op).op
  {
    var a := ExprPass(env, op).op;
    if OverTable(a) {
      CollectSize(a.exprs[0]);
      assert a.exprs == [a.exprs[0]] && a.children == [a.children[0]];
    }
  }

  /**
    A pass that reports no change has made none if no conjunction in the plan has a constant child,
    and has made the plan smaller otherwise.
   */
  lemma {:induction false} UnreportedPass(env: Env, op: Op)
    requires !RewritePlan(env, op).changed
    ensures if PlanConstantFree(op) then RewritePlan(env, op).op == op else OpSize(RewritePlan(env, op).op) < OpSize(op)
    decreases OpSize(op), 0
  {
    UnreportedRules(env, op);
    UnreportedExprPass(env, op);
    UnreportedPasses(env, Rules(env, op).op.children);
  }

  lemma {:induction false} UnreportedPasses(env: Env, ops: seq<Op>)
    requires !RewritePlans(env, ops).1
    ensures if PlansConstantFree(ops) then RewritePlans(env, ops).0 == ops
            else OpSizeAll(RewritePlans(env, ops).0) < OpSizeAll(ops)
    decreases OpSizeAll(ops), 1, |ops|
  {
    if ops != [] {
      UnreportedPass(env, ops[0]);
      UnreportedPasses(env, ops[1..]);
      assert ops == [ops[0]] + ops[1..];
      RewritePlansCons(env, ops[0], ops[1..]);
      UnreportedCons(ops[0], ops[1..], RewritePlan(env, ops[0]).op, RewritePlans(env, ops[1..]).0);
    }
  }

  lemma UnreportedCons(a: Op, xs: seq<Op>, b: Op, ys: seq<Op>)
    requires if PlanConstantFree(a) then b == a else OpSize(b) < OpSize(a)
    requires if PlansConstantFree(xs) then ys == xs else OpSizeAll(ys) < OpSizeAll(xs)
    ensures if PlansConstantFree([a] + xs) then [b] + ys == [a] + xs else OpSizeAll([b] + ys) < OpSizeAll([a] + xs)
  {
    assert ([a] + xs)[1..] == xs && ([b] + ys)[1..] == ys;
  }

  /** The plan that the last pass of the loop starts from. */
  function LastPlan(env: Env, op: Op): Op
    decreases OpSize(op)
  {
    var pass := RewritePlan(env, op);
    if pass.changed then LastPlan(env, pass.op) else op
  }

  /** The last pass, which reports no change, makes none if and only if no conjunction before it has a constant child. */
  lemma {:induction false} StopsStable(env: Env, op: Op)
    ensures Optimize(env, op) == LastPlan(env, op) <==> PlanConstantFree(LastPlan(env, op))
    ensures PlanConstantFree(LastPlan(env, op)) ==>
      RewritePlan(env, Optimize(env, op)) == RewrittenOp(Optimize(env, op), false)
    decreases OpSize(op)
  {
    var pass := RewritePlan(env, op);
    if pass.changed { StopsStable(env, pass.op); } else { UnreportedPass(env, op); }
  }

  // --- The loops ---

  lemma CollectAllCons(h: Expr, t: seq<Expr>)
    ensures CollectAll([h] + t).0 == Opt(Collect(h).rest) + CollectAll(t).0
    ensures CollectAll([h] + t).1 == Collect(h).down + CollectAll(t).1
  {
    assert ([h] + t)[1..] == t;
  }

  /** `CollectAll` of a list that ends in `e`. */
  ghost predicate CollectEndsIn(es: seq<Expr>, e: Expr) {
    && CollectAll(es + [e]).0 == CollectAll(es).0 + Opt(Collect(e).rest)
    && CollectAll(es + [e]).1 == CollectAll(es).1 + Collect(e).down
  }

  lemma CollectEndsInCons(h: Expr, t: seq<Expr>, e: Expr)
    requires CollectEndsIn(t, e)
    ensures CollectEndsIn([h] + t, e)
  {
    Assoc([h], t, [e]);
    CollectAllCons(h, t + [e]);
    CollectAllCons(h, t);
    Assoc(Opt(Collect(h).rest), CollectAll(t).0, Opt(Collect(e).rest));
    Assoc(Collect(h).down, CollectAll(t).1, Collect(e).down);
  }

  lemma {:induction false} CollectAllSnoc(es: seq<Expr>, e: Expr)
    ensures CollectEndsIn(es, e)
  {
    var c := Collect(e);
    if es == [] {
      assert es + [e] == [e] + [];
      CollectAllCons(e, []);
      assert Opt(c.rest) + [] == [] + Opt(c.rest) && c.down + [] == [] + c.down;
    } else {
      CollectAllSnoc(es[1..], e);
      CollectEndsInCons(es[0], es[1..], e);
      assert es == [es[0]] + es[1..];
    }
  }

  /** `get_exprs_can_pushdown`: pushed expressions are appended, the expression is emptied or shrinks. */
  method GetExprsCanPushdown(e: Expr, pushdownExprs: seq<Expr>) returns (rest: Option<Expr>, exprs: seq<Expr>)
    ensures rest == Collect(e).rest && exprs == pushdownExprs + Collect(e).down
    decreases e
  {
    rest, exprs := Some(e), pushdownExprs;
    if e.Conj? {
      if e.kind.Or? {
        return;
      }
      var kept := [];
      for i := 0 to |e.children|
        invariant kept == CollectAll(e.children[..i]).0
        invariant exprs == pushdownExprs + CollectAll(e.children[..i]).1
      {
        assert e.children[..i + 1] == e.children[..i] + [e.children[i]];
        CollectAllSnoc(e.children[..i], e.children[i]);
        var childRest;
        childRest, exprs := GetExprsCanPushdown(e.children[i], exprs);
        if childRest.Some? {
          kept := kept + [childRest.value];
        }
      }
      assert e.children[..|e.children|] == e.children;
      rest := Some(Conj(And, kept));
    } else if e.Compare? {
      if e.comp != EqualTo || (!e.left.Field? && !e.right.Field?) {
        return;
      }
      rest, exprs := None, exprs + [e];
    }
  }

  lemma {:induction false} ExprPassSnoc(env: Env, ops: seq<Op>, op: Op)
    ensures ExprPassAll(env, ops + [op]).0 == ExprPassAll(env, ops).0 + [ExprPass(env, op).op]
    ensures ExprPassAll(env, ops + [op]).1 == (ExprPassAll(env, ops).1 || ExprPass(env, op).changed)
  {
    if ops == [] {
      assert ops + [op] == [op] && [op][1..] == [];
    } else {
      ExprPassSnoc(env, ops[1..], op);
      assert (ops + [op])[1..] == ops[1..] + [op] && (ops + [op])[0] == ops[0];
    }
  }

  lemma RewritePlansCons(env: Env, h: Op, t: seq<Op>)
    ensures RewritePlans(env, [h] + t).0 == [RewritePlan(env, h).op] + RewritePlans(env, t).0
    ensures RewritePlans(env, [h] + t).1 == (RewritePlan(env, h).changed || RewritePlans(env, t).1)
  {
    assert ([h] + t)[1..] == t;
  }

  /** `RewritePlans` of a list that ends in `op`. */
  ghost predicate PlansEndIn(env: Env, ops: seq<Op>, op: Op) {
    && RewritePlans(env, ops + [op]).0 == RewritePlans(env, ops).0 + [RewritePlan(env, op).op]
    && RewritePlans(env, ops + [op]).1 == (RewritePlans(env, ops).1 || RewritePlan(env, op).changed)
  }

  lemma PlansEndInCons(env: Env, h: Op, t: seq<Op>, op: Op)
    requires PlansEndIn(env, t, op)
    ensures PlansEndIn(env, [h] + t, op)
  {
    Assoc([h], t, [op]);
    RewritePlansCons(env, h, t + [op]);
    RewritePlansCons(env, h, t);
    Assoc([RewritePlan(env, h).op], RewritePlans(env, t).0, [RewritePlan(env, op).op]);
  }

  lemma {:induction false} RewritePlansSnoc(env: Env, ops: seq<Op>, op: Op)
    ensures PlansEndIn(env, ops, op)
  {
    if ops == [] {
      assert ops + [op] == [op] + [];
      RewritePlansCons(env, op, []);
    } else {
      RewritePlansSnoc(env, ops[1..], op);
      PlansEndInCons(env, ops[0], ops[1..], op);
      assert ops == [ops[0]] + ops[1..];
    }
  }

  lemma {:induction false} MemberOpSize(ops: seq<Op>, i: nat)
    requires i < |ops|
    ensures OpSize(ops[i]) <= OpSizeAll(ops)
  {
    if i > 0 { MemberOpSize(ops[1..], i - 1); }
  }

  /** The loop over the expressions of an operator. */
  method RewriteOwn(env: Env, es: seq<Expr>) returns (exprs: seq<Expr>, changed: bool)
    ensures (exprs, changed) == RewriteAll(env, es)
  {
    exprs, changed := [], false;
    for i := 0 to |es|
      invariant exprs == RewriteAll(env, es[..i]).0 && changed == RewriteAll(env, es[..i]).1
    {
      RewriteAllSnoc(env, es[..i], es[i]);
      assert es[..i + 1] == es[..i] + [es[i]];
      var e, sub := RewriteExpression(env, es[i]);
      exprs, changed := exprs + [e], changed || sub;
    }
    assert es[..|es|] == es;
  }

  /** `ExpressionRewriter::rewrite`. */
  method RewriteExpressions(env: Env, oper: Op) returns (op: Op, changed: bool)
    ensures RewrittenOp(op, changed) == ExprPass(env, oper)
    decreases oper, 1
  {
    var exprs, children, sub;
    exprs, changed := RewriteOwn(env, oper.exprs);
    children, sub := RewriteExpressionsAll(env, oper.children);
    op, changed := Op(oper.kind, exprs, children), changed || sub;
  }

  /** The loop over the child operators. */
  method RewriteExpressionsAll(env: Env, ops: seq<Op>) returns (children: seq<Op>, changed: bool)
    ensures (children, changed) == ExprPassAll(env, ops)
    decreases ops, 0
  {
    children, changed := [], false;
    for i := 0 to |ops|
      invariant children == ExprPassAll(env, ops[..i]).0 && changed == ExprPassAll(env, ops[..i]).1
    {
      ExprPassSnoc(env, ops[..i], ops[i]);
      assert ops[..i + 1] == ops[..i] + [ops[i]];
      var c, sub := RewriteExpressions(env, ops[i]);
      children, changed := children + [c], changed || sub;
    }
    assert ops[..|ops|] == ops;
  }

  /** `PredicatePushdownRewriter::rewrite`. */
  method PushDownPredicates(oper: Op) returns (op: Op, changed: bool)
    ensures RewrittenOp(op, changed) == Pushdown(oper)
  {
    op, changed := oper, false;
    if !oper.kind.Predicate? || |oper.children| != 1 || !oper.children[0].kind.TableGet? || |oper.exprs| != 1 {
      return;
    }
    var scan := oper.children[0];
    var rest, exprs := GetExprsCanPushdown(oper.exprs[0], []);
    assert [] + Collect(oper.exprs[0]).down == Collect(oper.exprs[0]).down;
    var e := if rest.None? then Const(Boolean(true)) else rest.value;
    if exprs != [] {
      changed := true;
      scan := scan.(kind := TableGet(scan.kind.table, exprs));
    }
    op := Op(Predicate, [e], [scan]);
  }

  method ApplyRules(env: Env, oper: Op) returns (op: Op, changed: bool)
    ensures RewrittenOp(op, changed) == Rules(env, oper)
  {
    op, changed := RewriteExpressions(env, oper);
    var removed := RemovePredicate(env, op);
    op, changed := removed.op, changed || removed.changed;
    var sub;
    op, sub := PushDownPredicates(op);
    changed := changed || sub;
  }

  /** `Rewriter::rewrite`: three rules on the operator, then its children. */
  method RewriteOperator(env: Env, oper: Op) returns (op: Op, changed: bool)
    ensures RewrittenOp(op, changed) == RewritePlan(env, oper)
    decreases OpSize(oper), 0
  {
    op, changed := ApplyRules(env, oper);
    var children, sub := RewriteChildren(env, op.children);
    op, changed := op.(children := children), changed || sub;
  }

  method RewriteChildren(env: Env, before: seq<Op>) returns (children: seq<Op>, changed: bool)
    ensures (children, changed) == RewritePlans(env, before)
    decreases OpSizeAll(before), 1
  {
    children, changed := [], false;
    for i := 0 to |before|
      invariant (children, changed) == RewritePlans(env, before[..i])
    {
      MemberOpSize(before, i);
      RewritePlansSnoc(env, before[..i], before[i]);
      assert before[..i + 1] == before[..i] + [before[i]];
      var c, sub := RewriteOperator(env, before[i]);
      children := children + [c];
      if sub && !changed {
        changed := true;
      }
    }
    assert before[..|before|] == before;
  }

  /** `OptimizeStage::rewrite`: the loop ends on every plan, and keeps the rows if every rule it applies meets its condition. */
  method RewriteUntilStable(env: Env, ghost db: Database, oper: Op) returns (op: Op)
    ensures op == Optimize(env, oper)
    ensures RunSafe(env, oper) ==> Rows(env, db, op) == Rows(env, db, oper)
  {
    if RunSafe(env, oper) { OptimizeSound(env, db, oper); }
    var changed;
    op, changed := RewriteOperator(env, oper);
    while changed
      invariant Optimize(env, oper) == if changed then Optimize(env, op) else op
      decreases changed, OpSize(op)
    {
      op, changed := RewriteOperator(env, op);
    }
  }
}
