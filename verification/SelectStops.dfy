/**
  The rewriting loop ends at a fixpoint on every SELECT that statement resolution builds, although a
  pass may change a plan without reporting it.
 */
module SelectStops {
  import opened Options
  import opened Expressions
  import opened LogicalPlan
  import opened Planner
  import opened ExprRewriter
  import opened ExprClass
  import opened PlanRewriter
  import opened SelectPipeline
  import opened TopUnits
  import SelectExact

  // --- Conditions on tables: no constants among them, now or later ---

  predicate Neat(e: Expr)
    decreases e, 1
  {
    (e.Compare? && Plain(e) && Open(e)) || (e.Conj? && AllNeat(e.children))
  }

  predicate AllNeat(es: seq<Expr>)
    decreases es, 0
  {
    es == [] || (Neat(es[0]) && AllNeat(es[1..]))
  }

  lemma {:induction false} NeatFree(e: Expr)
    requires Neat(e)
    ensures ConstantFree(e) && !IsBool(e)
    decreases e, 1
  {
    if e.Compare? { PlainFree(e); } else { AllNeatFree(e.children); }
  }

  lemma {:induction false} AllNeatFree(es: seq<Expr>)
    requires AllNeat(es)
    ensures ConstantFreeAll(es) && NoBools(es)
    decreases es, 0
  {
    if es != [] { NeatFree(es[0]); AllNeatFree(es[1..]); }
  }

  lemma {:induction false} NeatKept(env: Env, e: Expr)
    requires Neat(e)
    ensures Neat(Visit(env, e))
    decreases Size(e), 1
  {
    if e.Compare? {
      OpenNotFoldable(env, e);
      PlainKept(env, e);
      OpenKept(env, e);
    } else {
      AllNeatFree(e.children);
      if |e.children| == 1 {
        ScanStable(e.kind, [], e.children);
        assert [] + e.children == e.children;
      } else {
        RewriteOperands(env, e.kind, e.children);
        AllNeatKept(env, e.children);
      }
    }
  }

  lemma {:induction false} AllNeatKept(env: Env, es: seq<Expr>)
    requires AllNeat(es)
    ensures AllNeat(RewriteAll(env, es).0)
    decreases SizeAll(es), 2, |es|
  {
    if es != [] { NeatKept(env, es[0]); AllNeatKept(env, es[1..]); }
  }

  lemma {:induction false} NeatLeft(e: Expr)
    requires Neat(e)
    ensures Collect(e).rest.Some? ==> Neat(Collect(e).rest.value)
    decreases e, 1
  {
    if e.Conj? { AllNeatLeft(e.children); }
  }

  lemma {:induction false} AllNeatLeft(es: seq<Expr>)
    requires AllNeat(es)
    ensures AllNeat(CollectAll(es).0)
    decreases es, 0
  {
    if es != [] {
      var first, rest := Collect(es[0]), CollectAll(es[1..]).0;
      NeatLeft(es[0]);
      AllNeatLeft(es[1..]);
      CollectAllCons(es[0], es[1..]);
      assert es == [es[0]] + es[1..] && [] + rest == rest;
      if first.rest.Some? { assert ([first.rest.value] + rest)[1..] == rest; }
    }
  }

  // --- Plans of such conditions ---

  /** A predicate is neat, or the constant true that is left after a pushdown. */
  predicate NeatExprs(es: seq<Expr>) {
    es == [] || ((Neat(es[0]) || es[0] == TRUE) && NeatExprs(es[1..]))
  }

  predicate NeatPlan(op: Op)
    decreases op, 1
  {
    NeatExprs(op.exprs) && NeatPlans(op.children)
  }

  predicate NeatPlans(ops: seq<Op>)
    decreases ops, 0
  {
    ops == [] || (NeatPlan(ops[0]) && NeatPlans(ops[1..]))
  }

  lemma {:induction false} NeatExprsFree(es: seq<Expr>)
    requires NeatExprs(es)
    ensures ConstantFreeAll(es)
  {
    if es != [] {
      if Neat(es[0]) { NeatFree(es[0]); }
      NeatExprsFree(es[1..]);
    }
  }

  lemma {:induction false} NeatPlanFree(op: Op)
    requires NeatPlan(op)
    ensures PlanConstantFree(op)
    decreases op, 1
  {
    NeatExprsFree(op.exprs);
    NeatPlansFree(op.children);
  }

  lemma {:induction false} NeatPlansFree(ops: seq<Op>)
    requires NeatPlans(ops)
    ensures PlansConstantFree(ops)
    decreases ops, 0
  {
    if ops != [] { NeatPlanFree(ops[0]); NeatPlansFree(ops[1..]); }
  }

  lemma {:induction false} NeatExprsKept(env: Env, es: seq<Expr>)
    requires NeatExprs(es)
    ensures NeatExprs(RewriteAll(env, es).0)
  {
    if es != [] {
      if Neat(es[0]) { NeatKept(env, es[0]); } else { BoolVisit(env, es[0]); }
      NeatExprsKept(env, es[1..]);
    }
  }

  lemma {:induction false} NeatVisited(env: Env, op: Op)
    requires NeatPlan(op)
    ensures NeatPlan(ExprPass(env, op).op)
    decreases op, 1
  {
    NeatExprsKept(env, op.exprs);
    NeatsVisited(env, op.children);
  }

  lemma {:induction false} NeatsVisited(env: Env, ops: seq<Op>)
    requires NeatPlans(ops)
    ensures NeatPlans(ExprPassAll(env, ops).0)
    decreases ops, 0
  {
    if ops != [] { NeatVisited(env, ops[0]); NeatsVisited(env, ops[1..]); }
  }

  lemma NeatRemoved(env: Env, op: Op)
    requires NeatPlan(op)
    ensures NeatPlan(RemovePredicate(env, op).op)
  {
    if OverConstant(op) { assert NeatPlan(op.children[0]); }
  }

  lemma NeatPushed(op: Op)
    requires NeatPlan(op)
    ensures NeatPlan(Pushdown(op).op)
  {
    if OverTable(op) {
      var e, scan := op.exprs[0], op.children[0];
      var r := Pushdown(op).op;
      if Neat(e) { NeatLeft(e); }
      assert NeatPlan(scan) && r.children[0].exprs == scan.exprs && r.children[0].children == scan.children;
      assert NeatPlan(r.children[0]);
      assert r.children[1..] == [] && r.exprs[1..] == [];
    }
  }

  lemma {:induction false} NeatPassed(env: Env, op: Op)
    requires NeatPlan(op)
    ensures NeatPlan(RewritePlan(env, op).op)
    decreases OpSize(op), 0
  {
    var a := ExprPass(env, op).op;
    NeatVisited(env, op);
    NeatRemoved(env, a);
    NeatPushed(RemovePredicate(env, a).op);
    NeatsPassed(env, Rules(env, op).op.children);
  }

  lemma {:induction false} NeatsPassed(env: Env, ops: seq<Op>)
    requires NeatPlans(ops)
    ensures NeatPlans(RewritePlans(env, ops).0)
    decreases OpSizeAll(ops), 1, |ops|
  {
    if ops != [] { NeatPassed(env, ops[0]); NeatsPassed(env, ops[1..]); }
  }

  ghost predicate Fixpoint(env: Env, op: Op) {
    RewritePlan(env, op) == RewrittenOp(op, false)
  }

  /** Without other conditions the last pass changes nothing. */
  lemma {:induction false} NeatStops(env: Env, op: Op)
    requires NeatPlan(op)
    ensures Fixpoint(env, Optimize(env, op))
    decreases OpSize(op)
  {
    var pass := RewritePlan(env, op);
    if pass.changed {
      NeatPassed(env, op);
      NeatStops(env, pass.op);
    } else {
      NeatPlanFree(op);
      UnreportedPass(env, op);
    }
  }

  // --- With conditions that read no table on top ---

  lemma OverNeat(tree: Op)
    requires NeatPlan(tree)
    ensures NeatPlan(SelectExact.Over(SelectExact.ALWAYS, tree))
  {
    var e := SelectExact.ALWAYS;
    assert Neat(e) && [e][1..] == [] && NeatExprs([e]);
    assert [tree][1..] == [] && NeatPlans([tree]);
  }

  /** The tree below stays neat. */
  lemma NeatBelow(env: Env, tree: Op)
    requires NeatPlan(tree)
    ensures var tree1 := ExprPass(env, tree).op;
      NeatPlan(tree1) && NeatPlan(SelectExact.PassedTree(env, tree1))
  {
    var tree1 := ExprPass(env, tree).op;
    var o := SelectExact.Over(SelectExact.ALWAYS, tree1);
    NeatVisited(env, tree);
    OverNeat(tree1);
    NeatPassed(env, o);
  }

  /** A predicate that becomes a constant goes, and what is left is neat. */
  lemma ConstantGoes(env: Env, project: OpKind, e: Expr, tree: Op)
    requires NeatPlan(tree) && IsBool(Visit(env, e))
    ensures var pass := RewritePlan(env, SelectExact.Top(project, e, tree)); pass.changed && NeatPlan(pass.op)
  {
    var tree1 := ExprPass(env, tree).op;
    var p := SelectExact.Top(project, Visit(env, e), tree1);
    SelectExact.OverExprs(env, e, tree);
    SelectExact.TopExprs(env, project, SelectExact.Over(e, tree));
    NeatVisited(env, tree);
    var r := RemovePredicate(env, p).op;
    assert r.exprs == [] && (r.children == [] || r.children == [tree1]);
    assert NeatPlans(r.children) by { if r.children != [] { assert r.children[1..] == []; } }
    assert Pushdown(r) == RewrittenOp(r, false);
    NeatsPassed(env, r.children);
  }

  /** A pass that reports nothing leaves the tree as it is. */
  lemma TreeStays(env: Env, tree: Op)
    requires NeatPlan(tree) && !ExprPass(env, tree).changed
    requires !RewritePlan(env, SelectExact.Over(SelectExact.ALWAYS, tree)).changed
    ensures ExprPass(env, tree).op == tree && SelectExact.PassedTree(env, tree) == tree
  {
    var o := SelectExact.Over(SelectExact.ALWAYS, tree);
    NeatPlanFree(tree);
    UnreportedExprPass(env, tree);
    OverNeat(tree);
    NeatPlanFree(o);
    UnreportedPass(env, o);
  }

  /** The last pass: nothing is reported, and the plan it leaves does not change again. */
  lemma LastPass(env: Env, db: Database, project: OpKind, e: Expr, tree: Op)
    requires project.Project? && SelectExact.TreeOk(env, tree, false) && NeatPlan(tree) && TableRefs(e) == {}
    requires Calm(env, Visit(env, e)) && !Visit(env, e).Const? && !RewritePlan(env, SelectExact.Top(project, e, tree)).changed
    ensures Fixpoint(env, RewritePlan(env, SelectExact.Top(project, e, tree)).op)
  {
    var e1 := Visit(env, e);
    SelectExact.TablelessStill(env, e);
    SelectExact.TablelessStill(env, e1);
    SelectExact.TablelessStill(env, Visit(env, e1));
    SelectExact.TopPass(env, db, project, e, tree);
    NeatPlanFree(tree);
    UnreportedExprPass(env, tree);
    TreeStays(env, tree);
    CalmKept(env, e1);
    SelectExact.TopPass(env, db, project, e1, tree);
  }

  lemma {:induction false} TopStops(env: Env, db: Database, project: OpKind, e: Expr, tree: Op)
    requires project.Project? && SelectExact.TreeOk(env, tree, false) && NeatPlan(tree) && TableRefs(e) == {}
    requires Calm(env, Visit(env, e))
    ensures Fixpoint(env, Optimize(env, SelectExact.Top(project, e, tree)))
    decreases OpSize(SelectExact.Top(project, e, tree))
  {
    var p, e1 := SelectExact.Top(project, e, tree), Visit(env, e);
    var e2, tree2 := Visit(env, e1), SelectExact.PassedTree(env, ExprPass(env, tree).op);
    if e1.Const? {
      ConstantGoes(env, project, e, tree);
      NeatStops(env, RewritePlan(env, p).op);
    } else if RewritePlan(env, p).changed {
      SelectExact.TablelessStill(env, e);
      SelectExact.TablelessStill(env, e1);
      SelectExact.TablelessStill(env, e2);
      SelectExact.TopPass(env, db, project, e, tree);
      NeatBelow(env, tree);
      CalmKept(env, e1);
      CalmKept(env, e2);
      TopStops(env, db, project, e2, tree2);
    } else {
      LastPass(env, db, project, e, tree);
    }
  }

  /** Conditions on top of a neat tree. */
  lemma UnitsStop(env: Env, db: Database, project: OpKind, es: seq<Expr>, tree: Op)
    requires project.Project? && SelectExact.TreeOk(env, tree, false) && NeatPlan(tree) && AllTop(env, es) && TableRefsAll(es) == {}
    ensures Fixpoint(env, Optimize(env, SelectExact.Top(project, Conj(And, es), tree)))
  {
    var e := Conj(And, es);
    UnitsSettle(env, es);
    if Settles(env, Visit(env, e), es) {
      TopStops(env, db, project, e, tree);
    } else {
      SelectExact.TablelessStill(env, e);
      SelectExact.TablelessStill(env, Visit(env, e));
      SelectExact.TablelessStill(env, Visit(env, Visit(env, e)));
      SelectExact.TopPass(env, db, project, e, tree);
      NeatBelow(env, tree);
      TopStops(env, db, project, Visit(env, Visit(env, e)), SelectExact.PassedTree(env, ExprPass(env, tree).op));
    }
  }

  // --- The plans of the generator ---

  lemma {:induction false} ListNeat(comp: CompOp, x: Expr, vs: seq<Value>)
    requires x.Field?
    ensures AllNeat(Comparisons(comp, x, vs))
  {
    if vs != [] {
      var c, rest := Compare(comp, x, Const(vs[0])), Comparisons(comp, x, vs[1..]);
      ListNeat(comp, x, vs[1..]);
      assert Plain(x) && Plain(Const(vs[0])) && Open(x) && Neat(c);
      assert ([c] + rest)[0] == c && ([c] + rest)[1..] == rest;
    }
  }

  lemma UnitNeat(env: Env, u: FilterUnit)
    requires AsBuilt(u) && Refs(u) != {}
    ensures Neat(Meaning(u))
  {
    match u
    case Objects(comp, l, r) => PlainGood(env, Meaning(u));
    case ExprBased(comp, l, r) => PlainGood(env, Meaning(u));
    case Custom(e) =>
      if x, vs :| InList(e, x, vs) {
        ListGood(env, EqualTo, x, vs);
        ListNeat(EqualTo, x, vs);
      } else if x, vs :| NotInList(e, x, vs) {
        ListGood(env, NotEqual, x, vs);
        ListNeat(NotEqual, x, vs);
      }
  }

  lemma {:induction false} MembersNeat(es: seq<Expr>)
    requires forall e :: e in es ==> Neat(e)
    ensures AllNeat(es)
  {
    if es != [] { assert es[0] in es; MembersNeat(es[1..]); }
  }

  lemma WrapNeat(env: Env, us: seq<FilterUnit>, op: Op)
    requires NeatPlan(op) && forall u :: u in us ==> AsBuilt(u) && Refs(u) != {}
    ensures NeatPlan(Wrap(BuildAll(us), op))
  {
    var es := BuildAll(us);
    forall e | e in es ensures Neat(e) {
      var i :| 0 <= i < |es| && es[i] == e;
      assert us[i] in us;
      SelectExact.UnitCopyable(env, us[i]);
      BuiltMeans(us[i]);
      UnitNeat(env, us[i]);
    }
    MembersNeat(es);
    var w := Wrap(es, op);
    if es != [] { assert w.exprs[1..] == [] && w.children[1..] == []; }
  }

  lemma AccessNeat(env: Env, t: string, us: seq<FilterUnit>)
    requires forall u :: u in us ==> AsBuilt(u)
    ensures NeatPlan(Access(t, us))
  {
    forall u | u in UnitsAt(us, AtTable(t)) ensures AsBuilt(u) && Refs(u) != {} { UnitsAtMember(us, AtTable(t), u); }
    WrapNeat(env, UnitsAt(us, AtTable(t)), Op(TableGet(t, []), [], []));
  }

  lemma JoinNeat(l: Op, r: Op)
    requires NeatPlan(l) && NeatPlan(r)
    ensures NeatPlan(Op(Join, [], [l, r]))
  {
    assert [l, r][1..] == [r] && [r][1..] == [] && NeatPlans([r]);
  }

  lemma {:induction false} TreeNeat(env: Env, ts: seq<string>, us: seq<FilterUnit>)
    requires ts != [] && forall u :: u in us ==> AsBuilt(u)
    ensures NeatPlan(JoinTree(ts, us).op)
  {
    var n := |ts| - 1;
    var covered, before := Covered(PendingBefore(ts, us), Names(ts), true), BeforeOp(ts, us);
    AccessNeat(env, ts[n], us);
    if n > 0 {
      TreeNeat(env, ts[..n], us);
      JoinNeat(JoinTree(ts[..n], us).op, Access(ts[n], us));
    }
    forall u | u in covered ensures AsBuilt(u) && Refs(u) != {} {
      CoveredMember(PendingBefore(ts, us), Names(ts), true, u);
      if n > 0 { PendingMember(ts[..n], us, u); } else { UnitsAtMember(us, AtJoin, u); }
    }
    WrapNeat(env, covered, before);
    assert JoinTree(ts, us).op == Wrap(BuildAll(covered), before);
  }

  /** Any SELECT: a further pass over the rewritten plan changes nothing and reports nothing. */
  lemma SelectStopsAtFixpoint(env: Env, ts: seq<string>, us: seq<FilterUnit>, project: OpKind)
    requires project.Project? && SelectExact.Selectable(ts, us)
    ensures Fixpoint(env, Optimize(env, Plan(ts, us, project)))
  {
    var tree, es := JoinTree(ts, us).op, SelectExact.TopsOf(us);
    SelectExact.TreeIsOk(env, ts, us);
    SelectExact.TopsAre(env, us);
    PlanShape(ts, us, project);
    TreeNeat(env, ts, us);
    if es == [] {
      var p := Op(project, [], [tree]);
      assert p.children[1..] == [];
      NeatStops(env, p);
    } else {
      UnitsStop(env, map[], project, es, tree);
    }
  }
}
