/**
  Whole runs of the rewriting loop on generated plans: a second pushdown that loses the first, and a
  stop before the last change.
 */
module PipelineRuns {
  import opened Options
  import opened Expressions
  import opened LogicalPlan
  import opened Planner
  import opened ExprRewriter
  import opened PlanRewriter

  // --- One pass over a table under one predicate ---

  function ScanOf(t: string, preds: seq<Expr>): Op {
    Op(TableGet(t, preds), [], [])
  }

  function Filtered(e: Expr, t: string, preds: seq<Expr>): Op {
    Op(Predicate, [e], [ScanOf(t, preds)])
  }

  lemma ScanPass(env: Env, t: string, preds: seq<Expr>)
    ensures ExprPass(env, ScanOf(t, preds)) == RewrittenOp(ScanOf(t, preds), false)
    ensures RewritePlan(env, ScanOf(t, preds)) == RewrittenOp(ScanOf(t, preds), false)
  {
  }

  lemma FilteredExprs(env: Env, e: Expr, t: string, preds: seq<Expr>)
    ensures ExprPass(env, Filtered(e, t, preds)) == RewrittenOp(Filtered(Rewrite(env, e).expr, t, preds), Rewrite(env, e).changed)
  {
    ScanPass(env, t, preds);
    RewriteAllCons(env, e, []);
    assert [e] + [] == [e] && [Rewrite(env, e).expr] + [] == [Rewrite(env, e).expr];
    var scan := ScanOf(t, preds);
    assert [scan][1..] == [] && [scan] + [] == [scan];
    assert ExprPassAll(env, [scan]) == ([scan], false);
  }

  /** What a pass makes of the predicate above the scan. */
  function AfterPush(e: Expr, changed: bool, t: string, preds: seq<Expr>): RewrittenOp {
    if Collect(e).down == [] then RewrittenOp(Filtered(e, t, preds), changed)
    else RewrittenOp(Filtered(LeftOver(e), t, Collect(e).down), true)
  }

  lemma FilteredPass(env: Env, e: Expr, t: string, preds: seq<Expr>)
    ensures RewritePlan(env, Filtered(e, t, preds)) == AfterPush(Rewrite(env, e).expr, Rewrite(env, e).changed, t, preds)
  {
    var e' := Rewrite(env, e).expr;
    FilteredExprs(env, e, t, preds);
    CollectSize(e');
    var top := Rules(env, Filtered(e, t, preds)).op;
    var scan := top.children[0];
    assert top.children == [scan] && scan == ScanOf(t, scan.kind.predicates);
    ScanPass(env, t, scan.kind.predicates);
    RewritePlansCons(env, scan, []);
    assert [scan] + [] == [scan];
  }

  lemma ProjectExprs(env: Env, project: OpKind, child: Op)
    requires project.Project?
    ensures ExprPass(env, Op(project, [], [child]))
            == RewrittenOp(Op(project, [], [ExprPass(env, child).op]), ExprPass(env, child).changed)
  {
    var c := ExprPass(env, child);
    assert [child][1..] == [] && [c.op] + [] == [c.op];
    assert ExprPassAll(env, [child]) == ([c.op], c.changed);
  }

  /** A pass visits the predicate twice: from the projection, and by itself. */
  lemma ProjectPass(env: Env, project: OpKind, e: Expr, t: string, preds: seq<Expr>)
    requires project.Project? && !Rewrite(env, e).expr.Const?
    ensures var first := Rewrite(env, e);
      var second := Rewrite(env, first.expr);
      var r := AfterPush(second.expr, second.changed, t, preds);
      RewritePlan(env, Op(project, [], [Filtered(e, t, preds)])) == RewrittenOp(Op(project, [], [r.op]), first.changed || r.changed)
  {
    var child := Filtered(Rewrite(env, e).expr, t, preds);
    FilteredExprs(env, e, t, preds);
    ProjectExprs(env, project, Filtered(e, t, preds));
    FilteredPass(env, Rewrite(env, e).expr, t, preds);
    RewritePlansCons(env, child, []);
    assert [child] + [] == [child];
    var r := RewritePlan(env, child).op;
    assert [r] + [] == [r];
  }

  /** A predicate that was emptied is spliced out. */
  lemma TruePass(env: Env, project: OpKind, t: string, preds: seq<Expr>)
    requires project.Project?
    ensures RewritePlan(env, Op(project, [], [Filtered(Const(Boolean(true)), t, preds)]))
            == RewrittenOp(Op(project, [], [ScanOf(t, preds)]), true)
    ensures RewritePlan(env, Op(project, [], [ScanOf(t, preds)])) == RewrittenOp(Op(project, [], [ScanOf(t, preds)]), false)
  {
    var scan := ScanOf(t, preds);
    FilteredExprs(env, Const(Boolean(true)), t, preds);
    ProjectExprs(env, project, Filtered(Const(Boolean(true)), t, preds));
    ScanPass(env, t, preds);
    ProjectExprs(env, project, scan);
    RewritePlansCons(env, scan, []);
    assert [scan] + [] == [scan];
  }

  // --- Rewriting small expressions ---

  lemma RewriteOne(env: Env, kind: ConjKind, x: Expr)
    requires !IsBool(x)
    ensures Rewrite(env, Conj(kind, [x])) == Rewritten(x, true)
  {
    assert [x][1..] == [] && NoBools([x]);
    ScanStable(kind, [], [x]);
    assert [] + [x] == [x];
  }

  lemma RewriteAbsorbed(env: Env, kind: ConjKind, x: Expr, y: Expr)
    requires Absorbing(kind, x)
    ensures Rewrite(env, Conj(kind, [x, y])) == Rewritten(x, false)
  {
  }

  lemma RefsTwo(x: Expr, y: Expr)
    ensures TableRefsAll([x, y]) == TableRefs(x) + TableRefs(y)
    ensures NoRuntimeAll([x, y]) <==> NoRuntime(x) && NoRuntime(y)
  {
    assert [x, y][1..] == [y] && [y][1..] == [];
    assert TableRefsAll([y]) == TableRefs(y) + {};
    var none: seq<Expr> := [];
    assert NoRuntimeAll(none) && (NoRuntimeAll([y]) <==> NoRuntime(y));
    assert NoRuntimeAll([x, y]) <==> NoRuntime(x) && NoRuntimeAll([y]);
  }

  lemma RewriteLeft(env: Env, kind: ConjKind, x: Expr, y: Expr)
    requires !IsBool(x) && Neutral(kind, y)
    ensures Rewrite(env, Conj(kind, [x, y])) == Rewritten(x, true)
  {
    assert [x, y][1..] == [y] && [y][1..] == [] && [] + [x] == [x];
    assert ScanChildren(kind, [x], [y]) == Remaining([x]);
  }

  /** A comparison with a field or a value of the enclosing query stays. */
  lemma RewriteOpen(env: Env, x: Expr, v: Value)
    requires x.Field? || x.Outer?
    ensures Rewrite(env, Compare(EqualTo, x, Const(v))) == Rewritten(Compare(EqualTo, x, Const(v)), false)
  {
    var e := Compare(EqualTo, x, Const(v));
    assert TryEval(env, x) == None && TryEval(env, e) == None;
    assert FoldComparison(env, e) == Rewritten(e, false) && SimplifyConj(e) == Rewritten(e, false);
    RewriteLeaf(env, x);
    RewriteLeaf(env, Const(v));
  }

  lemma RewriteLeaf(env: Env, e: Expr)
    requires e.Field? || e.Outer? || e.Const?
    ensures Rewrite(env, e) == Rewritten(e, false)
  {
    assert FoldComparison(env, e) == Rewritten(e, false) && SimplifyConj(e) == Rewritten(e, false);
    assert Descend(env, e) == Rewritten(e, false);
  }

  /** A comparison of different values folds to false. */
  lemma RewriteFalse(env: Env, v: Value, w: Value)
    requires CompareValues(env, EqualTo, v, w) == Some(Boolean(false))
    ensures Rewrite(env, Compare(EqualTo, Const(v), Const(w))) == Rewritten(Const(Boolean(false)), true)
  {
    assert TryEval(env, Compare(EqualTo, Const(v), Const(w))) == Some(Boolean(false));
  }

  // --- Plans of one table ---

  lemma {:induction false} UnitsAllAt(us: seq<FilterUnit>, place: Place, other: Place)
    requires (forall u :: u in us ==> PlaceOf(u) == place) && other != place
    ensures UnitsAt(us, place) == us && UnitsAt(us, other) == []
  {
    if us != [] {
      var n := |us| - 1;
      assert us[n] in us && us == us[..n] + [us[n]];
      UnitsAllAt(us[..n], place, other);
    }
  }

  lemma OneTableTree(t: string, us: seq<FilterUnit>)
    requires UnitsAt(us, AtJoin) == []
    ensures JoinTree([t], us) == Tree(Access(t, us), [])
  {
    assert Covered([], Names([t]), true) == [] && Covered([], Names([t]), false) == [];
    assert BuildAll([]) == [];
  }

  /** All units belong to the one table, or all are on top: the same plan. */
  lemma OneTablePlan(t: string, us: seq<FilterUnit>, project: OpKind, place: Place)
    requires us != [] && (place == AtTable(t) || place == OnTop) && forall u :: u in us ==> PlaceOf(u) == place
    ensures Plan([t], us, project) == Op(project, [], [Filtered(Conj(And, BuildAll(us)), t, [])])
  {
    UnitsAllAt(us, place, if place == OnTop then AtTable(t) else OnTop);
    UnitsAllAt(us, place, AtJoin);
    OneTableTree(t, us);
    assert LegacyAll([]) + BuildAll(us) == BuildAll(us) && LegacyAll([]) + BuildAll([]) == [];
  }

  lemma AtItsTable(u: FilterUnit, t: string)
    requires Refs(u) == {t}
    ensures PlaceOf(u) == AtTable(t)
  {
    assert t in Refs(u);
  }

  // --- A second pushdown loses the first ---

  function Eq(t: string, f: string, n: int): Expr {
    Compare(EqualTo, Field(t, f), Const(Integer(n)))
  }

  function EqConst(m: int, n: int): Expr {
    Compare(EqualTo, Const(Integer(m)), Const(Integer(n)))
  }

  /** `a = 1 AND (b = 2 OR (1 = 2 AND 1 = 2))`. */
  function TwicePushed(): seq<FilterUnit> {
    [Objects(EqualTo, Attr("t", "a"), Literal(Integer(1))),
     Custom(Conj(Or, [Eq("t", "b", 2), Conj(And, [EqConst(1, 2), EqConst(1, 2)])]))]
  }

  lemma TwiceRefs()
    ensures var us := TwicePushed(); Refs(us[0]) == {"t"} && Refs(us[1]) == {"t"} && NoRuntime(us[1].e)
  {
    var c := EqConst(1, 2);
    var inner, b := Conj(And, [c, c]), Eq("t", "b", 2);
    assert TableRefs(c) == {} && TableRefs(b) == {"t"};
    RefsTwo(c, c);
    RefsTwo(b, inner);
  }

  lemma TwicePlan(project: OpKind)
    ensures Plan(["t"], TwicePushed(), project)
            == Op(project, [], [Filtered(Conj(And, [Eq("t", "a", 1), TwicePushed()[1].e]), "t", [])])
  {
    var us := TwicePushed();
    TwiceRefs();
    AtItsTable(us[0], "t");
    AtItsTable(us[1], "t");
    OneTablePlan("t", us, project, AtTable("t"));
    TwiceBuilt();
  }

  lemma TwiceBuilt()
    ensures BuildAll(TwicePushed()) == [Eq("t", "a", 1), TwicePushed()[1].e]
  {
    var us := TwicePushed();
    TwiceRefs();
    CloneIsCopy(us[1].e);
    assert BuildAll(us) == [Eq("t", "a", 1), us[1].e];
  }

  /** The visits of the first pass: the constants below fold one level at a time. */
  lemma TwiceVisits(env: Env)
    requires CompareValues(env, EqualTo, Integer(1), Integer(2)) == Some(Boolean(false))
    ensures var a, b, c, f := Eq("t", "a", 1), Eq("t", "b", 2), EqConst(1, 2), Const(Boolean(false));
      var e1 := Conj(And, [a, Conj(Or, [b, Conj(And, [f, f])])]);
      && Rewrite(env, Conj(And, [a, Conj(Or, [b, Conj(And, [c, c])])])) == Rewritten(e1, true)
      && Rewrite(env, e1) == Rewritten(Conj(And, [a, Conj(Or, [b, f])]), false)
  {
    var a, b, c, f := Eq("t", "a", 1), Eq("t", "b", 2), EqConst(1, 2), Const(Boolean(false));
    RewriteOpen(env, Field("t", "a"), Integer(1));
    RewriteOpen(env, Field("t", "b"), Integer(2));
    RewriteFalse(env, Integer(1), Integer(2));
    RewriteTwo(env, And, c, c);
    RewriteTwo(env, Or, b, Conj(And, [c, c]));
    RewriteTwo(env, And, a, Conj(Or, [b, Conj(And, [c, c])]));
    RewriteAbsorbed(env, And, f, f);
    RewriteTwo(env, Or, b, Conj(And, [f, f]));
    RewriteTwo(env, And, a, Conj(Or, [b, Conj(And, [f, f])]));
  }

  lemma OptimizeStep(env: Env, p: Op, q: Op)
    requires RewritePlan(env, p) == RewrittenOp(q, true)
    ensures Optimize(env, p) == Optimize(env, q)
  {
  }

  lemma TwiceFirst(env: Env, project: OpKind)
    requires project.Project? && CompareValues(env, EqualTo, Integer(1), Integer(2)) == Some(Boolean(false))
    ensures var a, o := Eq("t", "a", 1), Conj(Or, [Eq("t", "b", 2), Const(Boolean(false))]);
      RewritePlan(env, Plan(["t"], TwicePushed(), project))
      == RewrittenOp(Op(project, [], [Filtered(Conj(And, [o]), "t", [a])]), true)
  {
    var a, o := Eq("t", "a", 1), Conj(Or, [Eq("t", "b", 2), Const(Boolean(false))]);
    TwicePlan(project);
    TwiceVisits(env);
    TwicePush(a, o);
    ProjectPass(env, project, Conj(And, [a, TwicePushed()[1].e]), "t", []);
  }

  lemma TwicePush(a: Expr, o: Expr)
    requires Pushable(a) && o.Conj? && o.kind.Or?
    ensures AfterPush(Conj(And, [a, o]), false, "t", []) == RewrittenOp(Filtered(Conj(And, [o]), "t", [a]), true)
  {
    assert [a] + [o] == [a, o] && [o] + [] == [o];
    CollectAllCons(o, []);
    CollectAllCons(a, [o]);
    assert [] + [o] == [o] && [a] + [] == [a];
    assert Collect(Conj(And, [a, o])) == Pushed(Some(Conj(And, [o])), [a]);
  }

  lemma TwiceSecond(env: Env, project: OpKind)
    requires project.Project?
    ensures var b, f := Eq("t", "b", 2), Const(Boolean(false));
      RewritePlan(env, Op(project, [], [Filtered(Conj(And, [Conj(Or, [b, f])]), "t", [Eq("t", "a", 1)])]))
      == RewrittenOp(Op(project, [], [Filtered(Const(Boolean(true)), "t", [b])]), true)
  {
    var b, f := Eq("t", "b", 2), Const(Boolean(false));
    var o := Conj(Or, [b, f]);
    RewriteOne(env, And, o);
    RewriteLeft(env, Or, b, f);
    assert AfterPush(b, true, "t", [Eq("t", "a", 1)]) == RewrittenOp(Filtered(Const(Boolean(true)), "t", [b]), true);
    ProjectPass(env, project, Conj(And, [o]), "t", [Eq("t", "a", 1)]);
  }

  /** The first pass pushes `a = 1`, the second `b = 2` over it. */
  lemma TwiceRun(env: Env, project: OpKind)
    requires project.Project? && CompareValues(env, EqualTo, Integer(1), Integer(2)) == Some(Boolean(false))
    ensures Optimize(env, Plan(["t"], TwicePushed(), project)) == Op(project, [], [ScanOf("t", [Eq("t", "b", 2)])])
  {
    var a, b := Eq("t", "a", 1), Eq("t", "b", 2);
    var p1 := Op(project, [], [Filtered(Conj(And, [Conj(Or, [b, Const(Boolean(false))])]), "t", [a])]);
    var p2, p3 := Op(project, [], [Filtered(Const(Boolean(true)), "t", [b])]), Op(project, [], [ScanOf("t", [b])]);
    TwiceFirst(env, project);
    OptimizeStep(env, Plan(["t"], TwicePushed(), project), p1);
    TwiceSecond(env, project);
    OptimizeStep(env, p1, p2);
    TruePass(env, project, "t", [b]);
    OptimizeStep(env, p2, p3);
  }

  lemma SelectOne(env: Env, t: Tuple, e: Expr)
    requires Eval(env, e, t) == Some(Boolean(true))
    ensures Select(env, [t], [e]) == [t]
  {
    assert [e][1..] == [] && KeepAll(env, [e], t);
    assert [t][1..] == [];
  }

  lemma ProjectRows(env: Env, db: Database, project: OpKind, child: Op)
    requires project.Project?
    ensures Rows(env, db, Op(project, [], [child])) == Rows(env, db, child)
  {
  }

  /** A row with `b = 2` comes back whatever `a` is. */
  lemma PushdownTwice(env: Env, db: Database, project: OpKind)
    requires project.Project? && db == map["t" := [[("a", Integer(0)), ("b", Integer(2))]]]
    requires CompareValues(env, EqualTo, Integer(1), Integer(2)) == Some(Boolean(false))
    requires CompareValues(env, EqualTo, Integer(0), Integer(1)) == Some(Boolean(false))
    requires CompareValues(env, EqualTo, Integer(2), Integer(2)) == Some(Boolean(true))
    ensures |Rows(env, db, Optimize(env, Plan(["t"], TwicePushed(), project)))| == 1
    ensures Select(env, Cross(db, ["t"]), Meanings(TwicePushed())) == []
  {
    var row := Row("t", [("a", Integer(0)), ("b", Integer(2))]);
    TwiceRun(env, project);
    TwiceRow(env, row);
    assert Scan(db, "t") == [row];
    SelectOne(env, row, Eq("t", "b", 2));
    ProjectRows(env, db, project, ScanOf("t", [Eq("t", "b", 2)]));
    SelectNone(env, [row], Meanings(TwicePushed()));
  }

  lemma TwiceRow(env: Env, row: Tuple)
    requires row == Row("t", [("a", Integer(0)), ("b", Integer(2))])
    requires CompareValues(env, EqualTo, Integer(0), Integer(1)) == Some(Boolean(false))
    requires CompareValues(env, EqualTo, Integer(2), Integer(2)) == Some(Boolean(true))
    ensures Eval(env, Eq("t", "b", 2), row) == Some(Boolean(true)) && !KeepAll(env, Meanings(TwicePushed()), row)
  {
    assert row.cells[1..] == [("b", Integer(2))];
    assert FindCell(row, "t", "b") == Some(Integer(2)) && FindCell(row, "t", "a") == Some(Integer(0));
    assert Eval(env, Eq("t", "a", 1), row) == Some(Boolean(false));
    assert Meanings(TwicePushed())[0] == Eq("t", "a", 1);
  }

  // --- A stop before the last change ---

  /** Two subquery predicates, and a condition on the enclosing query that is true: `(true OR x = 1) OR x = 1`. */
  function Unfinished(): seq<FilterUnit> {
    var k := Compare(EqualTo, Outer("o", "x"), Const(Integer(1)));
    [Custom(Runtime(0)), Custom(Runtime(1)), Custom(Conj(Or, [Conj(Or, [Const(Boolean(true)), k]), k]))]
  }

  lemma UnfinishedPlan(project: OpKind)
    ensures Plan(["t"], Unfinished(), project)
            == Op(project, [], [Filtered(Conj(And, [Runtime(0), Runtime(1), Unfinished()[2].e]), "t", [])])
  {
    var us := Unfinished();
    var k, t := Compare(EqualTo, Outer("o", "x"), Const(Integer(1))), Const(Boolean(true));
    var inner := Conj(Or, [t, k]);
    assert TableRefs(k) == {} && TableRefs(t) == {};
    RefsTwo(t, k);
    RefsTwo(inner, k);
    OneTablePlan("t", us, project, OnTop);
    UnfinishedBuilt();
  }

  lemma UnfinishedBuilt()
    ensures BuildAll(Unfinished()) == [Runtime(0), Runtime(1), Unfinished()[2].e]
  {
    CloneIsCopy(Unfinished()[2].e);
  }

  lemma NoBoolsCons(x: Expr, es: seq<Expr>)
    ensures NoBools([x] + es) <==> !IsBool(x) && NoBools(es)
  {
    assert ([x] + es)[1..] == es;
  }

  lemma NoBoolsThree(x: Expr, y: Expr, z: Expr)
    requires !IsBool(x) && !IsBool(y) && !IsBool(z)
    ensures NoBools([x, y, z])
  {
    assert [z] + [] == [z] && [y] + [z] == [y, z] && [x] + [y, z] == [x, y, z];
    NoBoolsCons(z, []);
    NoBoolsCons(y, [z]);
    NoBoolsCons(x, [y, z]);
  }

  /** A third child next to two subquery predicates. */
  lemma RewriteThird(env: Env, x: Expr)
    requires !IsBool(x)
    ensures Rewrite(env, Conj(And, [Runtime(0), Runtime(1), x]))
            == Rewritten(Conj(And, [Runtime(0), Runtime(1), Rewrite(env, x).expr]), Rewrite(env, x).changed)
  {
    NoBoolsThree(Runtime(0), Runtime(1), x);
    RewriteOperands(env, And, [Runtime(0), Runtime(1), x]);
    RewriteTriple(env, Runtime(0), Runtime(1), x);
  }

  lemma RewriteTriple(env: Env, x: Expr, y: Expr, z: Expr)
    ensures var a, b, c := Rewrite(env, x), Rewrite(env, y), Rewrite(env, z);
      RewriteAll(env, [x, y, z]) == ([a.expr, b.expr, c.expr], a.changed || b.changed || c.changed)
  {
    var a, b, c := Rewrite(env, x), Rewrite(env, y), Rewrite(env, z);
    assert [x] + [y, z] == [x, y, z];
    RewriteAllCons(env, x, [y, z]);
    RewritePair(env, y, z);
    assert [a.expr] + [b.expr, c.expr] == [a.expr, b.expr, c.expr];
  }

  /** The third child is true: it goes. */
  lemma ThirdGoes(env: Env)
    ensures Rewrite(env, Conj(And, [Runtime(0), Runtime(1), Const(Boolean(true))]))
            == Rewritten(Conj(And, [Runtime(0), Runtime(1)]), false)
  {
    var r0, r1, x := Runtime(0), Runtime(1), Const(Boolean(true));
    assert [r0, r1, x][1..] == [r1, x] && [r1, x][1..] == [x] && [x][1..] == [];
    assert [] + [r0] == [r0] && [r0] + [r1] == [r0, r1];
    assert ScanChildren(And, [r0, r1], [x]) == Remaining([r0, r1]);
    assert ScanChildren(And, [r0], [r1, x]) == Remaining([r0, r1]);
    assert ScanChildren(And, [], [r0, r1, x]) == Remaining([r0, r1]);
    assert SimplifyConj(Conj(And, [r0, r1, x])) == Rewritten(Conj(And, [r0, r1]), false);
    RewritePair(env, r0, r1);
  }

  function Third(x: Expr): Expr {
    Conj(And, [Runtime(0), Runtime(1), x])
  }

  lemma UnfinishedPass(env: Env, project: OpKind)
    requires project.Project?
    ensures RewritePlan(env, Op(project, [], [Filtered(Third(Unfinished()[2].e), "t", [])]))
            == RewrittenOp(Op(project, [], [Filtered(Third(Const(Boolean(true))), "t", [])]), false)
  {
    UnfinishedVisits(env);
    NoPush(Third(Const(Boolean(true))));
    ProjectPass(env, project, Third(Unfinished()[2].e), "t", []);
  }

  lemma UnfinishedRun(env: Env, project: OpKind)
    requires project.Project?
    ensures Optimize(env, Plan(["t"], Unfinished(), project)) == Op(project, [], [Filtered(Third(Const(Boolean(true))), "t", [])])
  {
    UnfinishedPlan(project);
    UnfinishedPass(env, project);
  }

  lemma FurtherPass(env: Env, project: OpKind)
    requires project.Project?
    ensures RewritePlan(env, Op(project, [], [Filtered(Third(Const(Boolean(true))), "t", [])])).op
            == Op(project, [], [Filtered(Conj(And, [Runtime(0), Runtime(1)]), "t", [])])
  {
    ThirdGoes(env);
    RewriteTwo(env, And, Runtime(0), Runtime(1));
    NoPush(Conj(And, [Runtime(0), Runtime(1)]));
    ProjectPass(env, project, Third(Const(Boolean(true))), "t", []);
  }

  /** The loop stops after one pass at a plan that a further pass changes. */
  lemma StopsEarly(env: Env, project: OpKind)
    requires project.Project?
    ensures var last := Optimize(env, Plan(["t"], Unfinished(), project)); RewritePlan(env, last).op != last
  {
    UnfinishedRun(env, project);
    FurtherPass(env, project);
    assert |Third(Const(Boolean(true))).children| == 3;
  }

  lemma UnfinishedVisits(env: Env)
    ensures var k, t := Compare(EqualTo, Outer("o", "x"), Const(Integer(1))), Const(Boolean(true));
      && Rewrite(env, Third(Unfinished()[2].e)) == Rewritten(Third(Conj(Or, [t, k])), false)
      && Rewrite(env, Third(Conj(Or, [t, k]))) == Rewritten(Third(t), false)
  {
    var k, t := Compare(EqualTo, Outer("o", "x"), Const(Integer(1))), Const(Boolean(true));
    RewriteOpen(env, Outer("o", "x"), Integer(1));
    RewriteAbsorbed(env, Or, t, k);
    RewriteTwo(env, Or, Conj(Or, [t, k]), k);
    RewriteThird(env, Unfinished()[2].e);
    RewriteThird(env, Conj(Or, [t, k]));
  }

  /** Subquery predicates and constants are not pushed. */
  lemma {:induction false} NoPush(e: Expr)
    requires e.Conj? && forall c :: c in e.children ==> c.Runtime? || c.Const?
    ensures Collect(e).down == []
    decreases |e.children|
  {
    if e.kind.And? && e.children != [] {
      var c, rest := e.children[0], Conj(And, e.children[1..]);
      assert c in e.children && Collect(c).down == [];
      NoPush(rest);
      assert CollectAll(e.children).1 == [] + CollectAll(rest.children).1;
    }
  }
}
