/**
  Exactly which rows a SELECT delivers once its plan is rewritten, for all units that statement
  resolution builds and any tables, and exactly when these are the right ones.
 */
module SelectExact {
  import opened Options
  import opened Expressions
  import opened LogicalPlan
  import opened Planner
  import opened ExprRewriter
  import opened ExprClass
  import opened PlanRewriter
  import PlanClass
  import opened SelectPipeline
  import opened TopUnits

  // --- A predicate on top of a tree ---

  /** Keeps every row and never becomes a constant: stands in for a predicate that is looked at by itself. */
  const ALWAYS: Expr := Conj(And, [])

  function Over(e: Expr, tree: Op): Op {
    Op(Predicate, [e], [tree])
  }

  function Top(project: OpKind, e: Expr, tree: Op): Op {
    Op(project, [], [Over(e, tree)])
  }

  /** The rewriter handles the tree below a predicate that has nothing to push. */
  ghost predicate TreeOk(env: Env, tree: Op, near: bool) {
    PlanClass.Good(env, Over(ALWAYS, tree), near)
  }

  ghost predicate Still(e: Expr) {
    PlanClass.Settled(e, true)
  }

  lemma OverExprs(env: Env, e: Expr, tree: Op)
    ensures var c := ExprPass(env, tree);
      ExprPass(env, Over(e, tree)) == RewrittenOp(Over(Visit(env, e), c.op), Rewrite(env, e).changed || c.changed)
  {
    var c := ExprPass(env, tree);
    RewriteAllCons(env, e, []);
    assert [e] + [] == [e] && [Visit(env, e)] + [] == [Visit(env, e)];
    assert [tree][1..] == [] && [c.op] + [] == [c.op];
    assert ExprPassAll(env, [tree]) == ([c.op], c.changed);
  }

  lemma TopExprs(env: Env, project: OpKind, child: Op)
    ensures var c := ExprPass(env, child);
      ExprPass(env, Op(project, [], [child])) == RewrittenOp(Op(project, [], [c.op]), c.changed)
  {
    var c := ExprPass(env, child);
    assert [child][1..] == [] && [c.op] + [] == [c.op];
    assert ExprPassAll(env, [child]) == ([c.op], c.changed);
  }

  /** Removal and pushdown below the predicate do not depend on it. */
  lemma OverRules(e: Expr, tree: Op, env: Env)
    requires Still(e)
    ensures var r := Pushdown(RemovePredicate(env, Over(e, tree)).op);
      var c := RemovePredicate(env, Over(ALWAYS, tree));
      r == RewrittenOp(c.op.(exprs := [e]), false)
      && RemovePredicate(env, Over(e, tree)).changed == c.changed && Pushdown(c.op) == RewrittenOp(c.op, false)
  {
    PlanClass.NothingToPush(e);
    CollectSize(e);
    PlanClass.NothingToPush(ALWAYS);
    CollectSize(ALWAYS);
    var c := RemovePredicate(env, Over(ALWAYS, tree)).op;
    if |c.children| == 1 { assert c.children == [c.children[0]]; }
    assert RemovePredicate(env, Over(e, tree)).op == c.(exprs := [e]);
  }

  /** So a pass treats the tree the same below every predicate that has nothing to push. */
  lemma OverPass(env: Env, e: Expr, tree: Op)
    requires Still(Visit(env, e))
    ensures var c := RewritePlan(env, Over(ALWAYS, tree));
      RewritePlan(env, Over(e, tree)) == RewrittenOp(c.op.(exprs := [Visit(env, e)]), Rewrite(env, e).changed || c.changed)
  {
    OverExprs(env, e, tree);
    OverExprs(env, ALWAYS, tree);
    EmptyVisit(env, And);
    OverRules(Visit(env, e), ExprPass(env, tree).op, env);
  }

  lemma OverAlways(env: Env, db: Database, tree: Op)
    ensures Rows(env, db, Over(ALWAYS, tree)) == Rows(env, db, tree)
  {
    var rows := Rows(env, db, tree);
    forall t ensures KeepAll(env, [ALWAYS], t) == KeepAll(env, [], t) {
      assert [ALWAYS][1..] == [] && Eval(env, ALWAYS, t) == Some(Boolean(true));
    }
    SelectSame(env, rows, [ALWAYS], []);
    SelectNothing(env, rows);
  }

  lemma TreeVisited(env: Env, db: Database, tree: Op)
    requires TreeOk(env, tree, false)
    ensures TreeOk(env, ExprPass(env, tree).op, true) && Rows(env, db, ExprPass(env, tree).op) == Rows(env, db, tree)
  {
    OverExprs(env, ALWAYS, tree);
    EmptyVisit(env, And);
    PlanClass.ExprPassGood(env, Over(ALWAYS, tree));
    PlanClass.ExprPassGood(env, tree);
    ExprPassRows(env, db, tree);
  }

  /** The tree after a pass over the predicate on it. */
  function PassedTree(env: Env, tree: Op): Op {
    var c := RewritePlan(env, Over(ALWAYS, tree)).op;
    if c.children == [] then tree else c.children[0]
  }

  lemma TreePassed(env: Env, db: Database, tree: Op)
    requires TreeOk(env, tree, false)
    ensures RewritePlan(env, Over(ALWAYS, tree)).op == Over(ALWAYS, PassedTree(env, tree))
    ensures TreeOk(env, PassedTree(env, tree), false) && Rows(env, db, PassedTree(env, tree)) == Rows(env, db, tree)
  {
    var c := RewritePlan(env, Over(ALWAYS, tree)).op;
    EmptyVisit(env, And);
    OverPass(env, ALWAYS, tree);
    PlanClass.PassGood(env, Over(ALWAYS, tree));
    PassRows(env, db, Over(ALWAYS, tree));
    assert c.children == [c.children[0]];
    OverAlways(env, db, tree);
    OverAlways(env, db, c.children[0]);
  }

  lemma TopReady(env: Env, project: OpKind, e: Expr, tree: Op, near: bool)
    requires project.Project? && TreeOk(env, tree, near) && Ready(env, e) && Still(e)
    ensures PlanClass.Good(env, Top(project, e, tree), near)
  {
    assert PlanClass.Fits(ALWAYS, tree, near);
    assert PlanClass.Good(env, Over(e, tree), near);
  }

  /** The rest of a pass, once the expressions of a good plan are rewritten. */
  lemma RestOfPass(env: Env, db: Database, op: Op)
    requires PlanClass.Good(env, ExprPass(env, op).op, true)
    ensures PlanClass.Good(env, RewritePlan(env, op).op, false)
    ensures Rows(env, db, RewritePlan(env, op).op) == Rows(env, db, ExprPass(env, op).op)
  {
    var a := ExprPass(env, op).op;
    var b := RemovePredicate(env, a).op;
    var top := Pushdown(b).op;
    PlanClass.RemoveGood(env, a);
    RemoveRows(env, db, a);
    PlanClass.PushdownGood(env, b);
    PushRows(env, db, b);
    assert top == Rules(env, op).op;
    forall i | 0 <= i < |top.children| ensures PlanClass.Good(env, top.children[i], false) { PlanClass.GoodChild(env, top, false, i); }
    PlanClass.PassAllGood(env, top.children);
    PassAllRows(env, db, top.children);
    PlanClass.WithChildren(env, top, RewritePlans(env, top.children).0, false);
    RowsFromChildren(env, db, top, RewritePlans(env, top.children).0);
  }

  lemma TopRows(env: Env, db: Database, project: OpKind, e: Expr, tree: Op)
    requires project.Project?
    ensures Rows(env, db, Top(project, e, tree)) == Select(env, Rows(env, db, tree), [e])
  {
    var p := Top(project, e, tree);
    assert Rows(env, db, p) == Rows(env, db, p.children[0]);
  }

  /** A predicate that the next visit settles. */
  lemma SettledRun(env: Env, db: Database, project: OpKind, e: Expr, tree: Op)
    requires project.Project? && TreeOk(env, tree, false) && Ready(env, Visit(env, e)) && Still(Visit(env, e))
    ensures Rows(env, db, Optimize(env, Top(project, e, tree))) == Select(env, Rows(env, db, tree), [Visit(env, e)])
  {
    var p, tree' := Top(project, e, tree), ExprPass(env, tree).op;
    OverExprs(env, e, tree);
    TopExprs(env, project, Over(e, tree));
    TreeVisited(env, db, tree);
    TopReady(env, project, Visit(env, e), tree', true);
    RestOfPass(env, db, p);
    TopRows(env, db, project, Visit(env, e), tree');
    var pass := RewritePlan(env, p);
    PlanClass.GoodRunSafe(env, pass.op);
    if pass.changed { OptimizeSound(env, db, pass.op); }
  }

  /** A pass over a predicate that does not become constant at its first visit. */
  lemma TopPass(env: Env, db: Database, project: OpKind, e: Expr, tree: Op)
    requires project.Project? && TreeOk(env, tree, false) && !Visit(env, e).Const? && Still(Visit(env, Visit(env, e)))
    ensures var e2 := Visit(env, Visit(env, e));
      var tree2 := PassedTree(env, ExprPass(env, tree).op);
      && RewritePlan(env, Top(project, e, tree)).op == Top(project, e2, tree2)
      && (RewritePlan(env, Top(project, e, tree)).changed <==>
            Rewrite(env, e).changed || ExprPass(env, tree).changed || Rewrite(env, Visit(env, e)).changed
            || RewritePlan(env, Over(ALWAYS, ExprPass(env, tree).op)).changed)
      && TreeOk(env, tree2, false) && Rows(env, db, tree2) == Rows(env, db, tree)
  {
    var e1, tree1 := Visit(env, e), ExprPass(env, tree).op;
    var child := Over(e1, tree1);
    OverExprs(env, e, tree);
    TopExprs(env, project, Over(e, tree));
    TreeVisited(env, db, tree);
    PlanClass.Weaker(env, Over(ALWAYS, tree1));
    TreePassed(env, db, tree1);
    OverPass(env, e1, tree1);
    RewritePlansCons(env, child, []);
    var r := RewritePlan(env, child).op;
    assert [child] + [] == [child] && [r] + [] == [r];
  }

  /** A predicate that reports a change at the first visit and settles at the third. */
  lemma LateRun(env: Env, db: Database, project: OpKind, e: Expr, tree: Op)
    requires project.Project? && TreeOk(env, tree, false) && !Visit(env, e).Const? && Rewrite(env, e).changed
    requires var e2 := Visit(env, Visit(env, e)); Still(e2) && Ready(env, Visit(env, e2)) && Still(Visit(env, e2))
    ensures Rows(env, db, Optimize(env, Top(project, e, tree)))
            == Select(env, Rows(env, db, tree), [Visit(env, Visit(env, Visit(env, e)))])
  {
    TopPass(env, db, project, e, tree);
    SettledRun(env, db, project, Visit(env, Visit(env, e)), PassedTree(env, ExprPass(env, tree).op));
  }

  // --- Rewriting adds no tables ---

  lemma {:induction false} RewriteRefs(env: Env, e: Expr)
    ensures TableRefs(Visit(env, e)) <= TableRefs(e)
    decreases Size(e), 1
  {
    if !FoldComparison(env, e).changed {
      if e.Conj? { ScanRefs(e.kind, [], e.children); }
      var s := SimplifyConj(e);
      if !s.changed { DescendRefs(env, s.expr); }
    }
  }

  lemma {:induction false} DescendRefs(env: Env, e: Expr)
    ensures TableRefs(Descend(env, e).expr) <= TableRefs(e)
    decreases Size(e), 0
  {
    match e
    case Cast(child, _) => RewriteRefs(env, child);
    case Compare(_, l, r) => RewriteRefs(env, l); RewriteRefs(env, r);
    case Conj(_, children) => RewriteAllRefs(env, children);
    case _ =>
  }

  lemma {:induction false} RewriteAllRefs(env: Env, es: seq<Expr>)
    ensures TableRefsAll(RewriteAll(env, es).0) <= TableRefsAll(es)
    decreases SizeAll(es), 2, |es|
  {
    if es != [] {
      RewriteRefs(env, es[0]);
      RewriteAllRefs(env, es[1..]);
      var r := RewriteAll(env, es).0;
      assert r[0] == Visit(env, es[0]) && r[1..] == RewriteAll(env, es[1..]).0;
    }
  }

  lemma {:induction false} RefsConcat(es: seq<Expr>, fs: seq<Expr>)
    ensures TableRefsAll(es + fs) == TableRefsAll(es) + TableRefsAll(fs)
  {
    if es == [] {
      assert es + fs == fs;
    } else {
      RefsConcat(es[1..], fs);
      assert (es + fs)[1..] == es[1..] + fs;
    }
  }

  lemma {:induction false} ScanRefs(kind: ConjKind, kept: seq<Expr>, rest: seq<Expr>)
    ensures match ScanChildren(kind, kept, rest)
      case Front(e) => TableRefs(e) <= TableRefsAll(kept) + TableRefsAll(rest)
      case Remaining(es) => TableRefsAll(es) <= TableRefsAll(kept) + TableRefsAll(rest)
    decreases |rest|
  {
    if rest != [] {
      if Neutral(kind, rest[0]) {
        ScanRefs(kind, kept, rest[1..]);
      } else if !Absorbing(kind, rest[0]) {
        RefsConcat(kept, [rest[0]]);
        assert [rest[0]][1..] == [];
        ScanRefs(kind, kept + [rest[0]], rest[1..]);
      }
    }
  }

  lemma TablelessStill(env: Env, e: Expr)
    requires TableRefs(e) == {}
    ensures Still(e) && TableRefs(Visit(env, e)) == {}
  {
    TablelessPushless(e);
    PlanClass.PushlessSettled(e, true);
    RewriteRefs(env, e);
  }

  /** The rows of a tree under the units that read no table. */
  lemma UnitsRun(env: Env, db: Database, project: OpKind, es: seq<Expr>, tree: Op) returns (e: Expr)
    requires project.Project? && TreeOk(env, tree, false) && AllTop(env, es) && TableRefsAll(es) == {}
    ensures Settles(env, e, es)
    ensures Rows(env, db, Optimize(env, Top(project, Conj(And, es), tree))) == Select(env, Rows(env, db, tree), [e])
  {
    var e0 := Conj(And, es);
    var e1 := Visit(env, e0);
    var e2 := Visit(env, e1);
    TablelessStill(env, e0);
    TablelessStill(env, e1);
    TablelessStill(env, e2);
    TablelessStill(env, Visit(env, e2));
    UnitsSettle(env, es);
    if Settles(env, e1, es) {
      SettledRun(env, db, project, e0, tree);
      e := e1;
    } else {
      LateRun(env, db, project, e0, tree);
      e := Visit(env, e2);
    }
  }

  // --- The units that statement resolution builds ---

  ghost predicate Selectable(ts: seq<string>, us: seq<FilterUnit>) {
    ts != [] && DistinctNames(ts) && forall u :: u in us ==> AsBuilt(u) && Refs(u) <= Names(ts)
  }

  lemma {:induction false} ListFoldable(env: Env, comp: CompOp, v: Value, vs: seq<Value>)
    requires comp == EqualTo || comp == NotEqual
    ensures var es := Comparisons(comp, Const(v), vs); AllFoldable(env, es) && |es| == |vs|
  {
    if vs != [] {
      ListFoldable(env, comp, v, vs[1..]);
      var c := Compare(comp, Const(v), Const(vs[0]));
      var rest := Comparisons(comp, Const(v), vs[1..]);
      assert Plain(Const(v)) && Plain(Const(vs[0])) && Plain(c);
      assert TryEval(env, Const(v)) == Some(v) && TryEval(env, Const(vs[0])) == Some(vs[0]) && TryEval(env, c).Some?;
      assert ([c] + rest)[0] == c && ([c] + rest)[1..] == rest;
    }
  }

  /** A list on a column reads its table. */
  lemma FieldListRefs(comp: CompOp, x: Expr, vs: seq<Value>)
    requires x.Field? && vs != []
    ensures x.table in TableRefsAll(Comparisons(comp, x, vs))
  {
    var es := Comparisons(comp, x, vs);
    assert es[0] == Compare(comp, x, Const(vs[0])) && TableRefs(x) == {x.table};
  }

  lemma UnitCopyable(env: Env, u: FilterUnit)
    requires AsBuilt(u)
    ensures Copyable(u)
  {
    match u
    case Objects(_, _, _) =>
    case ExprBased(_, l, r) => PlainGood(env, l); PlainGood(env, r);
    case Custom(e) =>
      if x, vs :| InList(e, x, vs) {
        ListGood(env, EqualTo, x, vs);
      } else if x, vs :| NotInList(e, x, vs) {
        ListGood(env, NotEqual, x, vs);
      }
  }

  /** Units that read no table are of the kinds that the rewriter may get wrong. */
  lemma UnitOnTop(env: Env, u: FilterUnit)
    requires AsBuilt(u) && PlaceOf(u) == OnTop
    ensures TopUnit(env, Meaning(u))
  {
    if u.Custom? && !IsBool(u.e) && !u.e.Runtime? {
      if x, vs :| InList(u.e, x, vs) {
        if x.Field? { FieldListRefs(EqualTo, x, vs); } else { ListFoldable(env, EqualTo, x.v, vs); }
      } else {
        var x, vs :| NotInList(u.e, x, vs);
        if x.Field? { FieldListRefs(NotEqual, x, vs); } else { ListFoldable(env, NotEqual, x.v, vs); }
      }
    }
  }

  /** The others are manageable. */
  lemma UnitOnTables(env: Env, u: FilterUnit)
    requires AsBuilt(u) && Refs(u) != {}
    ensures Manageable(env, u)
  {
    if u.Custom? {
      forall x, vs | InList(u.e, x, vs) ensures !x.Const? {
        ListGood(env, EqualTo, x, vs);
      }
    }
    AsBuiltGood(env, u);
  }

  function TopsOf(us: seq<FilterUnit>): seq<Expr> {
    Meanings(UnitsAt(us, OnTop))
  }

  lemma {:induction false} MembersTop(env: Env, es: seq<Expr>)
    requires forall e :: e in es ==> TopUnit(env, e) && TableRefs(e) == {}
    ensures AllTop(env, es) && TableRefsAll(es) == {}
  {
    if es != [] { assert es[0] in es; MembersTop(env, es[1..]); }
  }

  lemma TopsAre(env: Env, us: seq<FilterUnit>)
    requires forall u :: u in us ==> AsBuilt(u)
    ensures AllTop(env, TopsOf(us)) && TableRefsAll(TopsOf(us)) == {} && BuildAll(UnitsAt(us, OnTop)) == TopsOf(us)
  {
    var top := UnitsAt(us, OnTop);
    forall u | u in top ensures AsBuilt(u) && PlaceOf(u) == OnTop && Refs(u) == {} && Copyable(u) {
      UnitsAtMember(us, OnTop, u);
      UnitCopyable(env, u);
    }
    BuiltAllMean(top);
    forall e | e in TopsOf(us) ensures TopUnit(env, e) && TableRefs(e) == {} {
      var i :| 0 <= i < |top| && Meaning(top[i]) == e;
      assert top[i] in top;
      UnitOnTop(env, top[i]);
      BuiltMeans(top[i]);
    }
    MembersTop(env, TopsOf(us));
  }

  lemma TreeIsOk(env: Env, ts: seq<string>, us: seq<FilterUnit>)
    requires Selectable(ts, us)
    ensures Plannable(ts, us) && TreeOk(env, JoinTree(ts, us).op, false)
  {
    forall u | u in us ensures Copyable(u) { UnitCopyable(env, u); }
    forall u | u in us && Refs(u) != {} ensures Manageable(env, u) { UnitOnTables(env, u); }
    TreeGood(env, ts, us);
    FinalReady(env, ALWAYS);
  }

  // --- The rows ---

  /** The rows of the tables under the units that read tables. */
  function TableRows(env: Env, db: Database, ts: seq<string>, us: seq<FilterUnit>): seq<Tuple>
    requires ts != []
  {
    Select(env, Cross(db, ts), Meanings(DueUnits(us, Names(ts))))
  }

  function Passing(env: Env, rows: seq<Tuple>, es: seq<Expr>): seq<Tuple> {
    if rows == [] then []
    else (if Delivered(env, es, rows[0]) then [rows[0]] else []) + Passing(env, rows[1..], es)
  }

  lemma {:induction false} PassingIs(env: Env, rows: seq<Tuple>, es: seq<Expr>, e: Expr)
    requires forall t :: Keep(env, e, t) == Delivered(env, es, t)
    ensures Select(env, rows, [e]) == Passing(env, rows, es)
  {
    if rows != [] {
      PassingIs(env, rows[1..], es, e);
      assert [e][1..] == [] && KeepAll(env, [e], rows[0]) == Keep(env, e, rows[0]);
    }
  }

  lemma {:induction false} PassingAll(env: Env, rows: seq<Tuple>, es: seq<Expr>)
    requires forall t :: t in rows ==> Delivered(env, es, t)
    ensures Passing(env, rows, es) == rows
  {
    if rows != [] {
      PassingAll(env, rows[1..], es);
      assert rows[0] in rows && rows == [rows[0]] + rows[1..];
    }
  }

  lemma TreeRows(env: Env, db: Database, ts: seq<string>, us: seq<FilterUnit>)
    requires Plannable(ts, us)
    ensures Rows(env, db, JoinTree(ts, us).op) == TableRows(env, db, ts, us)
  {
    var due := DueUnits(us, Names(ts));
    JoinTreeRows(env, db, ts, us);
    forall u | u in due ensures Copyable(u) { DueMember(us, Names(ts), u); }
    BuiltAllMean(due);
  }

  lemma WithoutTops(env: Env, db: Database, tree: Op, project: OpKind)
    requires project.Project? && TreeOk(env, tree, false)
    ensures Rows(env, db, Optimize(env, Op(project, [], [tree]))) == Rows(env, db, tree)
  {
    var p := Op(project, [], [tree]);
    PlanClass.GoodRunSafe(env, p);
    OptimizeSound(env, db, p);
    assert Rows(env, db, p) == Rows(env, db, p.children[0]);
  }

  /** Any SELECT: the rows of its tables that `Delivered` lets through, in row-major order. */
  lemma SelectDelivers(env: Env, db: Database, ts: seq<string>, us: seq<FilterUnit>, project: OpKind)
    requires project.Project? && Selectable(ts, us)
    ensures Rows(env, db, Optimize(env, Plan(ts, us, project))) == Passing(env, TableRows(env, db, ts, us), TopsOf(us))
  {
    var tree, es := JoinTree(ts, us).op, TopsOf(us);
    TreeIsOk(env, ts, us);
    TopsAre(env, us);
    PlanShape(ts, us, project);
    TreeRows(env, db, ts, us);
    if es == [] {
      WithoutTops(env, db, tree, project);
      PassingAll(env, TableRows(env, db, ts, us), es);
    } else {
      var e := UnitsRun(env, db, project, es, tree);
      PassingIs(env, TableRows(env, db, ts, us), es, e);
    }
  }

  // --- When they are right ---

  /** What the WHERE clause says about the units on top. */
  lemma SelectMeans(env: Env, db: Database, ts: seq<string>, us: seq<FilterUnit>)
    requires Plannable(ts, us)
    ensures Select(env, Cross(db, ts), Meanings(Kept(us))) == Select(env, TableRows(env, db, ts, us), TopsOf(us))
  {
    var due, top, project := DueUnits(us, Names(ts)), UnitsAt(us, OnTop), Project([], []);
    PlanRows(env, db, ts, us, project);
    PlanShape(ts, us, project);
    TreeRows(env, db, ts, us);
    forall u | u in top ensures Copyable(u) { UnitsAtMember(us, OnTop, u); }
    BuiltAllMean(top);
    WrapRows(env, db, top, JoinTree(ts, us).op);
    var p := Plan(ts, us, project);
    assert Rows(env, db, p) == Rows(env, db, p.children[0]);
  }

  lemma {:induction false} FalsifiedKeepsNone(env: Env, es: seq<Expr>, visits: nat, t: Tuple)
    requires AllTop(env, es) && visits <= 2 && Falsified(env, es, visits)
    ensures !KeepAll(env, es, t)
  {
    if Known(env, es[0], visits) == Some(false) {
      KnownAnswer(env, es[0], visits, t);
    } else {
      FalsifiedKeepsNone(env, es[1..], visits, t);
    }
  }

  /** A list of several values that does not have the value looked for. */
  predicate SomeMissing(env: Env, es: seq<Expr>) {
    es != [] && ((Lost(env, es[0], 2) && !Decided(env, Or, es[0].children)) || SomeMissing(env, es[1..]))
  }

  lemma {:induction false} AnswersButMissing(env: Env, es: seq<Expr>, t: Tuple)
    requires AllTop(env, es)
    ensures KeepAll(env, es, t) <==> AnswerAll(env, es, t) && !SomeMissing(env, es)
  {
    if es != [] {
      AnswersButMissing(env, es[1..], t);
      if ConstList(env, es[0]) { ListKeeps(env, es[0], t); }
    }
  }

  predicate KeepsNone(env: Env, e: Expr, visits: nat, rows: seq<Tuple>) {
    forall t :: t in rows ==> !Answer(env, e, visits, t)
  }

  /**
    When the units on top are treated right, `rows` being the rows that reach them.  If some unit
    becomes false, the one that is left instead keeps no row.  Otherwise every list of several values
    has its value, or no row passes the other units anyway.
   */
  predicate Right(env: Env, es: seq<Expr>, rows: seq<Tuple>) {
    if Falsified(env, es, 0) then KeepsNone(env, Decider(env, es, 0), 0, rows)
    else if Falsified(env, es, 1) then KeepsNone(env, Decider(env, es, 1), 1, rows)
    else if Falsified(env, es, 2) then KeepsNone(env, Decider(env, es, 2), 2, rows)
    else SomeMissing(env, es) ==> forall t :: t in rows ==> !AnswerAll(env, es, t)
  }

  /** No row is lost; and on the rows that reach them, the units let through what they should exactly when right. */
  lemma RightMeans(env: Env, es: seq<Expr>, rows: seq<Tuple>)
    requires AllTop(env, es)
    ensures forall t :: KeepAll(env, es, t) ==> Delivered(env, es, t)
    ensures Right(env, es, rows) <==> forall t :: t in rows && Delivered(env, es, t) ==> KeepAll(env, es, t)
  {
    forall t ensures KeepAll(env, es, t) ==> Delivered(env, es, t) { DeliversAll(env, es, t); }
    forall t ensures KeepAll(env, es, t) <==> AnswerAll(env, es, t) && !SomeMissing(env, es) { AnswersButMissing(env, es, t); }
    if visits :| 0 <= visits <= 2 && Falsified(env, es, visits) {
      forall t ensures !KeepAll(env, es, t) { FalsifiedKeepsNone(env, es, visits, t); }
    }
  }

  lemma DeliversAll(env: Env, es: seq<Expr>, t: Tuple)
    requires AllTop(env, es)
    ensures KeepAll(env, es, t) ==> Delivered(env, es, t)
  {
    AnswersButMissing(env, es, t);
    if visits :| 0 <= visits <= 2 && Falsified(env, es, visits) { FalsifiedKeepsNone(env, es, visits, t); }
  }

  lemma {:induction false} PassingExact(env: Env, rows: seq<Tuple>, es: seq<Expr>)
    requires forall t :: KeepAll(env, es, t) ==> Delivered(env, es, t)
    ensures |Select(env, rows, es)| <= |Passing(env, rows, es)|
    ensures Passing(env, rows, es) == Select(env, rows, es)
            <==> forall t :: t in rows && Delivered(env, es, t) ==> KeepAll(env, es, t)
  {
    if rows != [] {
      var x, a, b := rows[0], Passing(env, rows[1..], es), Select(env, rows[1..], es);
      PassingExact(env, rows[1..], es);
      assert rows == [x] + rows[1..] && [] + a == a && [] + b == b;
      assert ([x] + a)[1..] == a && ([x] + b)[1..] == b;
      if Delivered(env, es, x) && !KeepAll(env, es, x) {
        assert |Passing(env, rows, es)| > |Select(env, rows, es)|;
      }
    }
  }

  /**
    Any SELECT as it is built: the rows delivered are those of the WHERE units that the generator
    keeps, if and only if the units that read no table are treated right on the rows of the tables.
   */
  lemma RowsExact(env: Env, db: Database, ts: seq<string>, us: seq<FilterUnit>, project: OpKind)
    requires project.Project? && Selectable(ts, us)
    ensures Rows(env, db, Optimize(env, Plan(ts, us, project))) == Select(env, Cross(db, ts), Meanings(Kept(us)))
            <==> Right(env, TopsOf(us), TableRows(env, db, ts, us))
  {
    var rows, es := TableRows(env, db, ts, us), TopsOf(us);
    SelectDelivers(env, db, ts, us, project);
    TreeIsOk(env, ts, us);
    SelectMeans(env, db, ts, us);
    TopsAre(env, us);
    RightMeans(env, es, rows);
    PassingExact(env, rows, es);
  }

  lemma {:induction false} PassingNone(env: Env, rows: seq<Tuple>, es: seq<Expr>)
    ensures Passing(env, rows, es) == [] <==> forall t :: t in rows ==> !Delivered(env, es, t)
  {
    if rows != [] {
      PassingNone(env, rows[1..], es);
      assert rows == [rows[0]] + rows[1..];
    }
  }

  /**
    Against the whole WHERE clause: if the comparisons of literals that the generator drops are all
    true, the units that read no table have to be treated right; if one is false, no row may be
    delivered at all.
   */
  lemma WhereExact(env: Env, db: Database, ts: seq<string>, us: seq<FilterUnit>, project: OpKind)
    requires project.Project? && Selectable(ts, us)
    ensures Rows(env, db, Optimize(env, Plan(ts, us, project))) == Select(env, Cross(db, ts), Meanings(us)) <==>
      var rows, es := TableRows(env, db, ts, us), TopsOf(us);
      if DroppedAreTrue(env, us) then Right(env, es, rows) else forall t :: t in rows ==> !Delivered(env, es, t)
  {
    var rows := Cross(db, ts);
    forall t ensures KeepAll(env, Meanings(us), t) <==> KeepAll(env, Meanings(Kept(us)), t) && DroppedAreTrue(env, us) {
      KeepDropped(env, us, t);
    }
    if DroppedAreTrue(env, us) {
      SelectSame(env, rows, Meanings(us), Meanings(Kept(us)));
      RowsExact(env, db, ts, us, project);
    } else {
      SelectNone(env, rows, Meanings(us));
      SelectDelivers(env, db, ts, us, project);
      PassingNone(env, TableRows(env, db, ts, us), TopsOf(us));
    }
  }

  // --- Subqueries only ---

  /** Results of EXISTS, and predicates evaluated per row. */
  predicate Subqueries(es: seq<Expr>) {
    es == [] || ((IsBool(es[0]) || es[0].Runtime?) && Subqueries(es[1..]))
  }

  lemma {:induction false} SubqueryTops(env: Env, es: seq<Expr>, visits: nat)
    requires Subqueries(es)
    ensures Falsified(env, es, visits) <==> FALSE in es
    ensures !SomeMissing(env, es)
    ensures FALSE in es ==> Falsified(env, es, 0) && !ConstList(env, Decider(env, es, 0))
  {
    if es != [] { SubqueryTops(env, es[1..], visits); }
  }

  /** Right if and only if no EXISTS is false, or the first unit that is not true keeps no row of the tables. */
  lemma SubqueriesExact(env: Env, db: Database, ts: seq<string>, us: seq<FilterUnit>, project: OpKind)
    requires project.Project? && Selectable(ts, us) && Subqueries(TopsOf(us))
    ensures var es := TopsOf(us);
      Rows(env, db, Optimize(env, Plan(ts, us, project))) == Select(env, Cross(db, ts), Meanings(Kept(us)))
      <==> (Falsified(env, es, 0) ==> forall t :: t in TableRows(env, db, ts, us) ==> !Keep(env, Decider(env, es, 0), t))
    ensures Falsified(env, TopsOf(us), 0) <==> FALSE in TopsOf(us)
  {
    RowsExact(env, db, ts, us, project);
    SubqueryTops(env, TopsOf(us), 0);
    SubqueryTops(env, TopsOf(us), 1);
    SubqueryTops(env, TopsOf(us), 2);
  }

  // --- One list of values ---

  /** `v IN (vs)`. */
  function ListOf(v: Value, vs: seq<Value>): Expr {
    Conj(Or, Comparisons(EqualTo, Const(v), vs))
  }

  predicate Absent(env: Env, v: Value, vs: seq<Value>) {
    forall i :: 0 <= i < |vs| ==> CompareValues(env, EqualTo, v, vs[i]) == Some(Boolean(false))
  }

  lemma {:induction false} AbsentDecides(env: Env, v: Value, vs: seq<Value>)
    ensures Decided(env, Or, Comparisons(EqualTo, Const(v), vs)) <==> !Absent(env, v, vs)
  {
    if vs != [] {
      AbsentDecides(env, v, vs[1..]);
      var c, rest := Compare(EqualTo, Const(v), Const(vs[0])), Comparisons(EqualTo, Const(v), vs[1..]);
      assert ([c] + rest)[0] == c && ([c] + rest)[1..] == rest;
      assert TryEval(env, Const(v)) == Some(v) && TryEval(env, Const(vs[0])) == Some(vs[0]);
      assert TryEval(env, c) == CompareValues(env, EqualTo, v, vs[0]);
      assert Absent(env, v, vs) <==> CompareValues(env, EqualTo, v, vs[0]) == Some(Boolean(false)) && Absent(env, v, vs[1..]);
    }
  }

  /** What is known of the list, and what it answers. */
  lemma OneList(env: Env, v: Value, vs: seq<Value>, t: Tuple)
    requires vs != []
    ensures var e := ListOf(v, vs);
      && ConstList(env, e) && |e.children| == |vs| && Known(env, e, 0) == None && Known(env, e, 1) == None
      && Known(env, e, 2) == (if |vs| == 1 then Some(!Absent(env, v, vs)) else if Absent(env, v, vs) then None else Some(true))
      && Keep(env, e, t) == !Absent(env, v, vs)
  {
    var e := ListOf(v, vs);
    ListFoldable(env, EqualTo, v, vs);
    AbsentDecides(env, v, vs);
    ListKeeps(env, e, t);
    if |vs| == 1 { assert e.children[1..] == []; }
  }

  lemma OneFalsified(env: Env, e: Expr, visits: nat)
    ensures Falsified(env, [e], visits) <==> Known(env, e, visits) == Some(false)
  {
    assert [e][1..] == [] && !Falsified(env, [e][1..], visits);
  }

  lemma ListRight(env: Env, v: Value, vs: seq<Value>, rows: seq<Tuple>)
    requires vs != []
    ensures Right(env, [ListOf(v, vs)], rows) <==> |vs| == 1 || !Absent(env, v, vs) || rows == []
  {
    var e := ListOf(v, vs);
    var es := [e];
    assert es[1..] == [];
    AbsentDecides(env, v, vs);
    forall t ensures Keep(env, e, t) == !Absent(env, v, vs) { OneList(env, v, vs, t); }
    OneList(env, v, vs, Row("", []));
    OneFalsified(env, e, 0);
    OneFalsified(env, e, 1);
    OneFalsified(env, e, 2);
    assert Falsified(env, es, 2) <==> |vs| == 1 && Absent(env, v, vs);
    assert SomeMissing(env, es) <==> |vs| >= 2 && Absent(env, v, vs);
    if |vs| >= 2 && Absent(env, v, vs) {
      assert forall t :: AnswerAll(env, es, t);
      if rows != [] { assert rows[0] in rows; }
    }
  }

  /**
    A value looked for in a list, and any conditions on the tables: right if and only if the value is
    found, the list has one value, or no row passes these conditions.
   */
  lemma ValueListExact(env: Env, db: Database, ts: seq<string>, us: seq<FilterUnit>, v: Value, vs: seq<Value>, project: OpKind)
    requires project.Project? && Selectable(ts, us) && vs != [] && TopsOf(us) == [ListOf(v, vs)]
    ensures Rows(env, db, Optimize(env, Plan(ts, us, project))) == Select(env, Cross(db, ts), Meanings(Kept(us)))
            <==> |vs| == 1 || !Absent(env, v, vs) || TableRows(env, db, ts, us) == []
  {
    RowsExact(env, db, ts, us, project);
    ListRight(env, v, vs, TableRows(env, db, ts, us));
  }

  /** A value that is not among several: the list is lost, and every row of the tables is delivered. */
  lemma LostValue(env: Env, db: Database, ts: seq<string>, us: seq<FilterUnit>, v: Value, vs: seq<Value>, project: OpKind)
    requires project.Project? && Selectable(ts, us) && |vs| >= 2 && Absent(env, v, vs) && TopsOf(us) == [ListOf(v, vs)]
    ensures Rows(env, db, Optimize(env, Plan(ts, us, project))) == TableRows(env, db, ts, us)
    ensures Select(env, Cross(db, ts), Meanings(Kept(us))) == []
  {
    var rows, es := TableRows(env, db, ts, us), TopsOf(us);
    assert es[1..] == [];
    SelectDelivers(env, db, ts, us, project);
    TreeIsOk(env, ts, us);
    SelectMeans(env, db, ts, us);
    OneFalsified(env, es[0], 0);
    OneFalsified(env, es[0], 1);
    OneFalsified(env, es[0], 2);
    forall t ensures Delivered(env, es, t) && !KeepAll(env, es, t) { OneList(env, v, vs, t); }
    PassingAll(env, rows, es);
    SelectNone(env, rows, es);
  }

  // --- Comparisons of constants ---

  /** `1 = 1` before an EXISTS without rows. */
  function TautologyFirst(): seq<FilterUnit> {
    [ExprBased(EqualTo, Const(Integer(1)), Const(Integer(1))), Custom(FALSE)]
  }

  /** A correlated subquery before `1 = 2`. */
  function SubqueryFirst(id: nat): seq<FilterUnit> {
    [Custom(Runtime(id)), ExprBased(EqualTo, Const(Integer(1)), Const(Integer(2)))]
  }

  lemma TwoOnTop(u: FilterUnit, w: FilterUnit, t: string)
    requires PlaceOf(u) == OnTop && PlaceOf(w) == OnTop && AsBuilt(u) && AsBuilt(w) && t != ""
    ensures Selectable([t], [u, w]) && TopsOf([u, w]) == [Meaning(u), Meaning(w)] && DueUnits([u, w], Names([t])) == []
    ensures Kept([u, w]) == [u, w]
  {
    assert [u, w][..1] == [u] && [u][..0] == [] && [u] + [w] == [u, w];
    assert UnitsAt([u], OnTop) == [u] && UnitsAt([u, w], OnTop) == [u, w];
    assert DueUnits([u], Names([t])) == [];
    assert Kept([u]) == [u];
  }

  lemma OneTableRows(env: Env, db: Database, t: string, us: seq<FilterUnit>)
    requires DueUnits(us, Names([t])) == []
    ensures TableRows(env, db, [t], us) == Scan(db, t)
  {
    SelectNothing(env, Scan(db, t));
  }

  /** The comparison is left instead of the false, and then folds to true: every row is delivered instead of none. */
  lemma TautologyWins(env: Env, db: Database, t: string, project: OpKind)
    requires project.Project? && t != "" && CompareValues(env, EqualTo, Integer(1), Integer(1)) == Some(Boolean(true))
    ensures var us := TautologyFirst();
      && Rows(env, db, Optimize(env, Plan([t], us, project))) == Scan(db, t)
      && Select(env, Cross(db, [t]), Meanings(us)) == []
  {
    var us := TautologyFirst();
    var c := Compare(EqualTo, Const(Integer(1)), Const(Integer(1)));
    ConstantComparison(env, 1, 1);
    TwoOnTop(us[0], us[1], t);
    OneTableRows(env, db, t, us);
    SelectDelivers(env, db, [t], us, project);
    var es := [c, FALSE];
    OneFalsified(env, FALSE, 0);
    assert es[1..] == [FALSE] && Decider(env, es, 0) == c;
    forall x ensures Delivered(env, es, x) && !KeepAll(env, es, x) {
      FoldVisit(env, c);
      assert !KeepAll(env, [FALSE], x);
    }
    PassingAll(env, Scan(db, t), es);
    assert Meanings(us) == es;
    SelectNone(env, Scan(db, t), es);
  }

  lemma ConstantComparison(env: Env, m: int, n: int)
    ensures var u := ExprBased(EqualTo, Const(Integer(m)), Const(Integer(n)));
      PlaceOf(u) == OnTop && AsBuilt(u) && Foldable(env, Meaning(u))
      && (Holds(env, Meaning(u)) <==> CompareValues(env, EqualTo, Integer(m), Integer(n)) == Some(Boolean(true)))
  {
    var l, r := Const(Integer(m)), Const(Integer(n));
    assert TableRefs(l) == {} && TableRefs(r) == {} && Plain(l) && Plain(r);
    assert TryEval(env, l) == Some(l.v) && TryEval(env, r) == Some(r.v);
  }

  /** The subquery predicate is left instead of the false comparison: its rows are delivered instead of none. */
  lemma SubqueryWins(env: Env, db: Database, t: string, id: nat, project: OpKind)
    requires project.Project? && t != "" && CompareValues(env, EqualTo, Integer(1), Integer(2)) == Some(Boolean(false))
    ensures var us := SubqueryFirst(id);
      && Rows(env, db, Optimize(env, Plan([t], us, project))) == Select(env, Scan(db, t), [Runtime(id)])
      && Select(env, Cross(db, [t]), Meanings(us)) == []
  {
    var us := SubqueryFirst(id);
    var c := Compare(EqualTo, Const(Integer(1)), Const(Integer(2)));
    ConstantComparison(env, 1, 2);
    TwoOnTop(us[0], us[1], t);
    OneTableRows(env, db, t, us);
    SelectDelivers(env, db, [t], us, project);
    var es := [Runtime(id), c];
    assert es[1..] == [c] && [c][1..] == [];
    OneFalsified(env, c, 0);
    OneFalsified(env, c, 1);
    assert Decider(env, es, 1) == Runtime(id);
    forall x ensures Delivered(env, es, x) == Keep(env, Runtime(id), x) && !KeepAll(env, es, x) {
      FoldVisit(env, c);
      assert !KeepAll(env, [c], x);
    }
    PassingIs(env, Scan(db, t), es, Runtime(id));
    assert Meanings(us) == es;
    SelectNone(env, Scan(db, t), es);
  }
}
