/**
  A SELECT statement from its WHERE units to the rewritten plan: the generator's plans meet the
  conditions of the rewriter, so the pipeline delivers the filtered cross product.
 */
module SelectPipeline {
  import opened Options
  import opened Expressions
  import opened LogicalPlan
  import opened Planner
  import opened ExprRewriter
  import opened ExprClass
  import opened PlanRewriter
  import opened PlanClass

  /** A unit is a boolean expression; if it reads tables it stays row-dependent and pushes at most once. */
  ghost predicate Manageable(env: Env, u: FilterUnit) {
    var e := Meaning(u);
    && BoolTyped(e) && GoodExpr(env, e)
    && (Refs(u) != {} ==> Open(e))
    && (PlaceOf(u).AtTable? ==> Near(e))
  }

  /** All units are manageable, and those that read no table are arranged as an AND has to be. */
  ghost predicate Optimizable(env: Env, us: seq<FilterUnit>) {
    && (forall u :: u in us ==> Manageable(env, u))
    && Arranged(env, And, Meanings(UnitsAt(us, OnTop)))
  }

  lemma {:induction false} TablelessPushless(e: Expr)
    requires TableRefs(e) == {}
    ensures Pushless(e)
    decreases e, 1
  {
    if e.Conj? { TablelessPushlessAll(e.children); }
  }

  lemma {:induction false} TablelessPushlessAll(es: seq<Expr>)
    requires TableRefsAll(es) == {}
    ensures PushlessAll(es)
    decreases es, 0
  {
    if es != [] { TablelessPushless(es[0]); TablelessPushlessAll(es[1..]); }
  }

  lemma {:induction false} MembersTyped(env: Env, es: seq<Expr>)
    requires forall e :: e in es ==> BoolTyped(e) && GoodExpr(env, e)
    ensures WellTypedAll(es) && OrderlyAll(env, es)
  {
    if es != [] { assert es[0] in es; MembersTyped(env, es[1..]); }
  }

  lemma {:induction false} MembersOpen(es: seq<Expr>)
    requires forall e :: e in es ==> Open(e)
    ensures AllOpen(es)
  {
    if es != [] { assert es[0] in es; MembersOpen(es[1..]); }
  }

  lemma {:induction false} MembersNear(es: seq<Expr>)
    requires forall e :: e in es ==> Near(e)
    ensures NearAll(es)
  {
    if es != [] { assert es[0] in es; MembersNear(es[1..]); }
  }

  lemma {:induction false} MembersSettled(es: seq<Expr>)
    requires forall e :: e in es ==> Settled(e, true)
    ensures SettledAll(es, true)
  {
    if es != [] { assert es[0] in es; MembersSettled(es[1..]); }
  }

  lemma AllGood(env: Env, us: seq<FilterUnit>)
    requires forall u :: u in us ==> Manageable(env, u) && Copyable(u)
    ensures var es := BuildAll(us); WellTypedAll(es) && OrderlyAll(env, es)
    ensures (forall u :: u in us ==> Refs(u) != {}) ==> AllOpen(BuildAll(us))
    ensures (forall u :: u in us ==> PlaceOf(u).AtTable?) ==> NearAll(BuildAll(us))
    ensures (forall u :: u in us ==> Refs(u) == {}) ==> SettledAll(BuildAll(us), true)
  {
    var es := BuildAll(us);
    forall e | e in es ensures exists u :: u in us && e == Build(u) == Meaning(u) && TableRefs(e) == Refs(u) {
      var i :| 0 <= i < |es| && es[i] == e;
      BuiltMeans(us[i]);
      assert us[i] in us;
    }
    MembersTyped(env, es);
    if forall u :: u in us ==> Refs(u) != {} { MembersOpen(es); }
    if forall u :: u in us ==> PlaceOf(u).AtTable? { MembersNear(es); }
    if forall u :: u in us ==> Refs(u) == {} {
      forall e | e in es ensures Settled(e, true) {
        TablelessPushless(e);
        PushlessSettled(e, true);
      }
      MembersSettled(es);
    }
  }

  /** Open children are arranged in any conjunction that has some. */
  lemma {:induction false} OpenArranged(env: Env, kind: ConjKind, es: seq<Expr>)
    requires AllOpen(es)
    ensures BenignAll(env, kind, es) && (es != [] ==> SomeLasting(env, es)) && Arranged(env, kind, es)
  {
    if es != [] { OpenArranged(env, kind, es[1..]); }
  }

  /** A filter of open conditions on top of `op`. */
  lemma WrapOpen(env: Env, us: seq<FilterUnit>, op: Op)
    requires Good(env, op, false)
    requires forall u :: u in us ==> Manageable(env, u) && Copyable(u) && Refs(u) != {}
    requires op.kind.TableGet? ==> op.kind.predicates == [] && forall u :: u in us ==> PlaceOf(u).AtTable?
    requires op.kind.Predicate? ==> us == []
    ensures Good(env, Wrap(BuildAll(us), op), false)
    ensures us != [] ==> var w := Wrap(BuildAll(us), op); w.kind.Predicate? && |w.exprs| == 1 && Open(w.exprs[0])
  {
    AllGood(env, us);
    OpenArranged(env, And, BuildAll(us));
  }

  ghost predicate OpenOnTop(op: Op) {
    && (op.kind.Predicate? ==> |op.exprs| == 1 && Open(op.exprs[0]))
    && (op.kind.TableGet? ==> op.kind.predicates == [])
    && (op.kind.TableGet? || op.kind.Predicate? || op.kind.Join?)
  }

  lemma AccessGood(env: Env, t: string, us: seq<FilterUnit>)
    requires forall u :: u in us && Refs(u) != {} ==> Manageable(env, u) && Copyable(u)
    ensures Good(env, Access(t, us), false) && OpenOnTop(Access(t, us))
  {
    forall u | u in UnitsAt(us, AtTable(t)) ensures u in us && PlaceOf(u) == AtTable(t) {
      UnitsAtMember(us, AtTable(t), u);
    }
    WrapOpen(env, UnitsAt(us, AtTable(t)), Op(TableGet(t, []), [], []));
  }

  lemma NoneCovered(t: string, us: seq<FilterUnit>)
    ensures Covered(UnitsAt(us, AtJoin), {t}, true) == []
  {
    var covered := Covered(UnitsAt(us, AtJoin), {t}, true);
    if covered != [] {
      var u := covered[0];
      assert u in covered;
      CoveredMember(UnitsAt(us, AtJoin), {t}, true, u);
      UnitsAtMember(us, AtJoin, u);
      OneTableNoJoin(u, t);
    }
  }

  lemma {:induction false} TreeGood(env: Env, ts: seq<string>, us: seq<FilterUnit>)
    requires ts != [] && forall u :: u in us && Refs(u) != {} ==> Manageable(env, u) && Copyable(u)
    ensures Good(env, JoinTree(ts, us).op, false) && OpenOnTop(JoinTree(ts, us).op)
  {
    var n := |ts| - 1;
    var covered := Covered(PendingBefore(ts, us), Names(ts), true);
    AccessGood(env, ts[n], us);
    if n > 0 { TreeGood(env, ts[..n], us); }
    if n == 0 {
      NoneCovered(ts[0], us);
      assert Names(ts) == {ts[0]} by { assert ts == [ts[0]]; }
    } else {
      forall u | u in covered ensures u in us && PlaceOf(u) == AtJoin {
        CoveredMember(PendingBefore(ts, us), Names(ts), true, u);
        PendingMember(ts[..n], us, u);
      }
      WrapOpen(env, covered, BeforeOp(ts, us));
    }
    assert JoinTree(ts, us).op == Wrap(BuildAll(covered), BeforeOp(ts, us));
  }

  /** The generator's plan is one that the rewriter handles. */
  lemma PlanGood(env: Env, ts: seq<string>, us: seq<FilterUnit>, project: OpKind)
    requires Plannable(ts, us) && Optimizable(env, us) && project.Project?
    ensures Good(env, Plan(ts, us, project), false)
  {
    PlanShape(ts, us, project);
    TreeGood(env, ts, us);
    TopGood(env, us);
    WrapGood(env, BuildAll(UnitsAt(us, OnTop)), JoinTree(ts, us).op);
  }

  lemma PlanShape(ts: seq<string>, us: seq<FilterUnit>, project: OpKind)
    requires Plannable(ts, us)
    ensures Plan(ts, us, project) == Op(project, [], [Wrap(BuildAll(UnitsAt(us, OnTop)), JoinTree(ts, us).op)])
  {
    var tree, top := JoinTree(ts, us), UnitsAt(us, OnTop);
    NothingPending(ts, us);
    assert LegacyAll(tree.pending) + BuildAll(top) == BuildAll(top);
  }

  lemma TopGood(env: Env, us: seq<FilterUnit>)
    requires Optimizable(env, us) && forall u :: u in us ==> Copyable(u)
    ensures var es := BuildAll(UnitsAt(us, OnTop));
      WellTypedAll(es) && OrderlyAll(env, es) && SettledAll(es, true) && Arranged(env, And, es)
  {
    var top := UnitsAt(us, OnTop);
    forall u | u in top ensures u in us && Refs(u) == {} {
      UnitsAtMember(us, OnTop, u);
    }
    AllGood(env, top);
    BuiltAllMean(top);
  }

  /** A filter of settled conditions on top of the join tree. */
  lemma WrapGood(env: Env, es: seq<Expr>, op: Op)
    requires Good(env, op, false) && OpenOnTop(op)
    requires WellTypedAll(es) && OrderlyAll(env, es) && SettledAll(es, true) && Arranged(env, And, es)
    ensures Good(env, Wrap(es, op), false)
  {
  }

  /**
    Planning and rewriting together deliver the cross product under all WHERE units that the
    generator keeps, whenever every rule that is applied on the way meets its condition; for
    optimizable units that is always so.
   */
  method PlanAndRewrite(env: Env, ghost db: Database, ts: seq<string>, us: seq<FilterUnit>, project: OpKind) returns (plan: Op)
    requires project.Project?
    ensures plan == Optimize(env, Plan(ts, us, project))
    ensures Plannable(ts, us) && RunSafe(env, Plan(ts, us, project)) ==>
              Rows(env, db, plan) == Select(env, Cross(db, ts), Meanings(Kept(us)))
    ensures Plannable(ts, us) && Optimizable(env, us) ==> RunSafe(env, Plan(ts, us, project))
  {
    if Plannable(ts, us) {
      PlanRows(env, db, ts, us, project);
      if Optimizable(env, us) {
        PlanGood(env, ts, us, project);
        GoodRunSafe(env, Plan(ts, us, project));
      }
    }
    plan := CreatePlan(ts, us, project);
    plan := RewriteUntilStable(env, db, plan);
  }

  // --- The units that statement resolution builds ---

  /** The comparisons of `x` with each of a list of values: for IN and NOT IN. */
  function Comparisons(comp: CompOp, x: Expr, vs: seq<Value>): seq<Expr> {
    if vs == [] then [] else [Compare(comp, x, Const(vs[0]))] + Comparisons(comp, x, vs[1..])
  }

  /**
    The forms of units: comparisons, results of EXISTS, predicates evaluated per row (correlated
    subqueries, lists on a computed operand), and IN and NOT IN of a field or a value in a list that
    is not empty.
   */
  ghost predicate AsBuilt(u: FilterUnit) {
    match u
    case Objects(_, _, _) => true
    case ExprBased(_, l, r) => Plain(l) && Plain(r)
    case Custom(e) =>
      || IsBool(e) || e.Runtime?
      || (exists x, vs :: InList(e, x, vs))
      || (exists x, vs :: NotInList(e, x, vs))
  }

  predicate InList(e: Expr, x: Expr, vs: seq<Value>) {
    vs != [] && (x.Field? || x.Const?) && e == Conj(Or, Comparisons(EqualTo, x, vs))
  }

  predicate NotInList(e: Expr, x: Expr, vs: seq<Value>) {
    vs != [] && (x.Field? || x.Const?) && e == Conj(And, Comparisons(NotEqual, x, vs))
  }

  /** A value that is looked for in several values is among them. */
  ghost predicate Found(env: Env, u: FilterUnit) {
    u.Custom? ==> forall x, vs :: InList(u.e, x, vs) && x.Const? && |vs| >= 2 ==>
      exists i :: 0 <= i < |vs| && CompareValues(env, EqualTo, x.v, vs[i]) == Some(Boolean(true))
  }

  /** The comparisons with a list. */
  lemma {:induction false} ListGood(env: Env, comp: CompOp, x: Expr, vs: seq<Value>)
    requires (x.Field? || x.Const?) && (comp == EqualTo || comp == NotEqual)
    ensures var es := Comparisons(comp, x, vs);
      && |es| == |vs| && WellTypedAll(es) && OrderlyAll(env, es) && NoRuntimeAll(es)
      && (x.Field? ==> AllOpen(es))
      && (x.Const? ==> TableRefsAll(es) == {} && Sorted(env, es, 1))
      && (comp == NotEqual ==> PushlessAll(es))
      && NoBools(es) && SettledAll(es, false)
  {
    if vs != [] {
      ListGood(env, comp, x, vs[1..]);
      var c := Compare(comp, x, Const(vs[0]));
      assert Comparisons(comp, x, vs)[1..] == Comparisons(comp, x, vs[1..]);
      if x.Const? {
        assert TableRefs(x) == {} && TableRefs(Const(vs[0])) == {} && TableRefs(c) == {};
        assert TryEval(env, x) == Some(x.v) && TryEval(env, Const(vs[0])) == Some(vs[0]) && TryEval(env, c).Some?;
      }
    }
  }

  lemma {:induction false} ListLasting(env: Env, x: Expr, vs: seq<Value>, i: nat)
    requires x.Const? && i < |vs| && CompareValues(env, EqualTo, x.v, vs[i]) == Some(Boolean(true))
    ensures SomeLasting(env, Comparisons(EqualTo, x, vs))
  {
    var es := Comparisons(EqualTo, x, vs);
    assert es[1..] == Comparisons(EqualTo, x, vs[1..]);
    if i == 0 {
      forall t ensures Eval(env, es[0], t) == Some(Boolean(true)) {}
      assert Always(env, es[0], true);
    } else {
      ListLasting(env, x, vs[1..], i - 1);
    }
  }

  lemma InListGood(env: Env, e: Expr, x: Expr, vs: seq<Value>)
    requires InList(e, x, vs) && Found(env, Custom(e))
    ensures Manageable(env, Custom(e)) && Copyable(Custom(e))
  {
    var es := Comparisons(EqualTo, x, vs);
    ListGood(env, EqualTo, x, vs);
    StripKeeps(env, Or, es);
    if x.Field? {
      OpenArranged(env, Or, es);
    } else {
      SortedLower(env, es, 1, 0);
      if |vs| >= 2 {
        var i :| 0 <= i < |vs| && CompareValues(env, EqualTo, x.v, vs[i]) == Some(Boolean(true));
        ListLasting(env, x, vs, i);
      }
    }
  }

  lemma NotInListGood(env: Env, e: Expr, x: Expr, vs: seq<Value>)
    requires NotInList(e, x, vs)
    ensures Manageable(env, Custom(e)) && Copyable(Custom(e))
  {
    var es := Comparisons(NotEqual, x, vs);
    ListGood(env, NotEqual, x, vs);
    StripKeeps(env, And, es);
    if x.Field? { OpenArranged(env, And, es); } else { SortedLower(env, es, 1, 0); }
  }

  /** Units as they are built are manageable, unless a value is looked for in several and not found. */
  lemma AsBuiltGood(env: Env, u: FilterUnit)
    requires AsBuilt(u) && Found(env, u)
    ensures Manageable(env, u) && Copyable(u)
  {
    match u
    case Objects(comp, l, r) => PlainGood(env, Meaning(u));
    case ExprBased(comp, l, r) => PlainGood(env, Meaning(u));
    case Custom(e) =>
      if x, vs :| InList(e, x, vs) {
        InListGood(env, e, x, vs);
      } else if x, vs :| NotInList(e, x, vs) {
        NotInListGood(env, e, x, vs);
      }
  }

  /** Units without tables are arranged, for one, if none of them is false whatever the row. */
  lemma {:induction false} BenignArranged(env: Env, es: seq<Expr>)
    requires forall e :: e in es ==> Benign(env, And, e)
    ensures BenignAll(env, And, es) && Arranged(env, And, es)
  {
    if es != [] { assert es[0] in es; BenignArranged(env, es[1..]); }
  }

  /** Any list of values on a column, one value such as in `t.a IN (5)` included. */
  lemma ColumnList(env: Env, t: string, a: string, vs: seq<Value>)
    requires vs != []
    ensures Manageable(env, Custom(Conj(Or, Comparisons(EqualTo, Field(t, a), vs))))
  {
    var e := Conj(Or, Comparisons(EqualTo, Field(t, a), vs));
    forall x, ws | InList(e, x, ws) ensures !x.Const? {
      SameList(Field(t, a), vs, x, ws);
    }
    assert Found(env, Custom(e));
    InListGood(env, e, Field(t, a), vs);
  }

  /** A value that is found, such as `1 IN (1, 2)`. */
  lemma FoundValue(env: Env, v: Value, vs: seq<Value>, i: nat)
    requires i < |vs| && CompareValues(env, EqualTo, v, vs[i]) == Some(Boolean(true))
    ensures Manageable(env, Custom(Conj(Or, Comparisons(EqualTo, Const(v), vs))))
  {
    var e := Conj(Or, Comparisons(EqualTo, Const(v), vs));
    forall x, ws | InList(e, x, ws) && x.Const?
      ensures exists k :: 0 <= k < |ws| && CompareValues(env, EqualTo, x.v, ws[k]) == Some(Boolean(true))
    {
      SameList(Const(v), vs, x, ws);
      assert CompareValues(env, EqualTo, x.v, ws[i]) == Some(Boolean(true));
    }
    InListGood(env, e, Const(v), vs);
  }

  lemma {:induction false} SameList(x: Expr, vs: seq<Value>, y: Expr, ws: seq<Value>)
    requires Comparisons(EqualTo, x, vs) == Comparisons(EqualTo, y, ws)
    ensures vs == ws && (vs != [] ==> x == y)
  {
    if vs != [] && ws != [] {
      var es, fs := Comparisons(EqualTo, x, vs), Comparisons(EqualTo, y, ws);
      assert es[0] == fs[0] && es[1..] == fs[1..];
      assert es[1..] == Comparisons(EqualTo, x, vs[1..]) && fs[1..] == Comparisons(EqualTo, y, ws[1..]);
      SameList(x, vs[1..], y, ws[1..]);
      assert vs == [vs[0]] + vs[1..] && ws == [ws[0]] + ws[1..];
    }
  }

  /** A correlated predicate and then an EXISTS found true. */
  lemma TrueExists(env: Env, id: nat)
    ensures Optimizable(env, [Custom(Runtime(id)), Custom(Const(Boolean(true)))])
  {
    var us := [Custom(Runtime(id)), Custom(Const(Boolean(true)))];
    forall u | u in us ensures Manageable(env, u) {}
    var top := UnitsAt(us, OnTop);
    forall e | e in Meanings(top) ensures Benign(env, And, e) {
      var i :| 0 <= i < |top| && Meaning(top[i]) == e;
      UnitsAtMember(us, OnTop, top[i]);
      if e.Const? { assert Always(env, e, true); }
    }
    BenignArranged(env, Meanings(top));
  }

  /**
    For units as they are built: the pipeline delivers the filtered cross product if every value
    looked for in several is found, and the units without tables are arranged.
   */
  lemma AsBuiltRows(env: Env, db: Database, ts: seq<string>, us: seq<FilterUnit>, project: OpKind)
    requires project.Project? && ts != [] && DistinctNames(ts)
    requires forall u :: u in us ==> AsBuilt(u) && Found(env, u) && Refs(u) <= Names(ts)
    requires Arranged(env, And, Meanings(UnitsAt(us, OnTop)))
    ensures Rows(env, db, Optimize(env, Plan(ts, us, project))) == Select(env, Cross(db, ts), Meanings(Kept(us)))
  {
    forall u | u in us ensures Manageable(env, u) && Copyable(u) { AsBuiltGood(env, u); }
    PlanRows(env, db, ts, us, project);
    PlanGood(env, ts, us, project);
    GoodRunSafe(env, Plan(ts, us, project));
    OptimizeSound(env, db, Plan(ts, us, project));
  }
}
