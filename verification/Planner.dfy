/**
  The plan of a SELECT statement: src/observer/sql/optimizer/logical_plan_generator.cpp.

  WHERE units are split into filters of one table, filters of several tables and the rest, and put
  back at the lowest place of a left-deep join tree that has all their tables.
 */
module Planner {
  import opened Options
  import opened Expressions
  import opened LogicalPlan

  datatype FilterObj = Attr(table: string, name: string) | Literal(v: Value)

  /** A WHERE unit: a whole expression, a comparison of expressions, or a comparison of fields and literals. */
  datatype FilterUnit =
    | Custom(e: Expr)
    | ExprBased(comp: CompOp, left: Expr, right: Expr)
    | Objects(comp: CompOp, l: FilterObj, r: FilterObj)

  function ObjExpr(o: FilterObj): Expr {
    match o
    case Attr(table, name) => Field(table, name)
    case Literal(v) => Const(v)
  }

  /** What the WHERE clause says. */
  function Meaning(u: FilterUnit): Expr {
    match u
    case Custom(e) => e
    case ExprBased(comp, l, r) => Compare(comp, l, r)
    case Objects(comp, l, r) => Compare(comp, ObjExpr(l), ObjExpr(r))
  }

  /** What goes into the plan: subquery predicates are moved, other expressions are cloned. */
  function Build(u: FilterUnit): Expr {
    match u
    case Custom(e) => if e.Runtime? then e else Clone(e)
    case ExprBased(comp, l, r) => Compare(comp, Clone(l), Clone(r))
    case Objects(comp, l, r) => Compare(comp, ObjExpr(l), ObjExpr(r))
  }

  function BuildAll(us: seq<FilterUnit>): (r: seq<Expr>)
    ensures |r| == |us| && forall i :: 0 <= i < |us| ==> r[i] == Build(us[i])
  {
    seq(|us|, i requires 0 <= i < |us| => Build(us[i]))
  }

  function ObjRefs(o: FilterObj): set<string> {
    if o.Attr? then {o.table} else {}
  }

  function Refs(u: FilterUnit): set<string> {
    match u
    case Custom(e) => TableRefs(e)
    case ExprBased(_, l, r) => TableRefs(l) + TableRefs(r)
    case Objects(_, l, r) => ObjRefs(l) + ObjRefs(r)
  }

  datatype Place = Nowhere | AtTable(table: string) | AtJoin | OnTop

  /** Where a unit goes; a comparison of two literals is taken for a tautology and dropped. */
  function PlaceOf(u: FilterUnit): Place {
    var refs := Refs(u);
    if refs == {} then (if u.Objects? then Nowhere else OnTop)
    else if |refs| == 1 then AtTable(Only(refs))
    else AtJoin
  }

  function Only(s: set<string>): (x: string)
    requires |s| == 1
    ensures s == {x}
  {
    SingletonHasOne(s);
    var x :| x in s;
    x
  }

  lemma SingletonHasOne(s: set<string>)
    requires |s| == 1
    ensures exists x :: x in s
    ensures forall x, y :: x in s && y in s ==> x == y
  {
    assert s != {};
    var x :| x in s;
    assert |s - {x}| == 0;
    assert s - {x} == {};
    forall y | y in s ensures y == x {
      assert y !in s - {x};
    }
  }

  function UnitsAt(us: seq<FilterUnit>, place: Place): seq<FilterUnit> {
    if us == [] then []
    else UnitsAt(us[..|us| - 1], place) + (if PlaceOf(us[|us| - 1]) == place then [us[|us| - 1]] else [])
  }

  /** The units whose tables are all joined (`inside`), or the others. */
  function Covered(us: seq<FilterUnit>, joined: set<string>, inside: bool): seq<FilterUnit> {
    if us == [] then []
    else Covered(us[..|us| - 1], joined, inside)
         + (if (Refs(us[|us| - 1]) <= joined) == inside then [us[|us| - 1]] else [])
  }

  function Wrap(es: seq<Expr>, op: Op): Op {
    if es == [] then op else Op(Predicate, [Conj(And, es)], [op])
  }

  function Access(t: string, us: seq<FilterUnit>): Op {
    Wrap(BuildAll(UnitsAt(us, AtTable(t))), Op(TableGet(t, []), [], []))
  }

  datatype Tree = Tree(op: Op, pending: seq<FilterUnit>)

  function Names(ts: seq<string>): set<string> {
    set t | t in ts
  }

  /** The join tree after the tables `ts`, with the join filters not placed yet. */
  function JoinTree(ts: seq<string>, us: seq<FilterUnit>): Tree
    requires ts != []
  {
    var n := |ts| - 1;
    var access := Access(ts[n], us);
    var before :=
      if n == 0 then Tree(access, UnitsAt(us, AtJoin))
      else var prev := JoinTree(ts[..n], us); Tree(Op(Join, [], [prev.op, access]), prev.pending);
    Tree(Wrap(BuildAll(Covered(before.pending, Names(ts), true)), before.op), Covered(before.pending, Names(ts), false))
  }

  /** Join filters left at the end are rebuilt from their field/literal operands, whatever kind they are. */
  function LegacyBuild(u: FilterUnit): Expr {
    match u
    case Objects(comp, l, r) => Compare(comp, ObjExpr(l), ObjExpr(r))
    case ExprBased(comp, _, _) => Compare(comp, Const(Null), Const(Null))
    case Custom(_) => Compare(Unsupported, Const(Null), Const(Null))
  }

  function LegacyAll(us: seq<FilterUnit>): (r: seq<Expr>)
    ensures |r| == |us|
  {
    seq(|us|, i requires 0 <= i < |us| => LegacyBuild(us[i]))
  }

  /** Without tables the projection, and the predicate if there is one, have no child. */
  function Plan(ts: seq<string>, us: seq<FilterUnit>, project: OpKind): Op {
    if ts == [] then
      var es := LegacyAll(UnitsAt(us, AtJoin)) + BuildAll(UnitsAt(us, OnTop));
      Op(project, [], if es == [] then [] else [Op(Predicate, [Conj(And, es)], [])])
    else
      var tree := JoinTree(ts, us);
      Op(project, [], [Wrap(LegacyAll(tree.pending) + BuildAll(UnitsAt(us, OnTop)), tree.op)])
  }

  /** A SELECT without tables delivers nothing. */
  lemma NoTables(env: Env, db: Database, us: seq<FilterUnit>, project: OpKind)
    requires project.Project?
    ensures Rows(env, db, Plan([], us, project)) == []
  {
    var plan := Plan([], us, project);
    assert plan.children != [] ==> Rows(env, db, plan.children[0]) == [];
  }

  // --- The generator itself ---

  /** First loop: sort the units by place. */
  method Partition(us: seq<FilterUnit>)
    returns (tableFilters: map<string, seq<FilterUnit>>, joinFilters: seq<FilterUnit>, exprFilters: seq<FilterUnit>)
    ensures forall t :: UnitsAt(us, AtTable(t)) == if t in tableFilters then tableFilters[t] else []
    ensures joinFilters == UnitsAt(us, AtJoin)
    ensures exprFilters == UnitsAt(us, OnTop)
  {
    tableFilters, joinFilters, exprFilters := map[], [], [];
    for i := 0 to |us|
      invariant forall t :: UnitsAt(us[..i], AtTable(t)) == if t in tableFilters then tableFilters[t] else []
      invariant joinFilters == UnitsAt(us[..i], AtJoin)
      invariant exprFilters == UnitsAt(us[..i], OnTop)
    {
      assert us[..i + 1][..i] == us[..i];
      var u := us[i];
      var refs := Refs(u);
      if refs == {} {
        if !u.Objects? {
          exprFilters := exprFilters + [u];
        }
      } else if |refs| == 1 {
        var t := Only(refs);
        tableFilters := tableFilters[t := (if t in tableFilters then tableFilters[t] else []) + [u]];
      } else {
        joinFilters := joinFilters + [u];
      }
    }
    assert us[..|us|] == us;
  }

  /** The erasing loop: move the filters whose tables are all joined out of `pending`. */
  method Extract(pending: seq<FilterUnit>, joined: set<string>) returns (covered: seq<FilterUnit>, rest: seq<FilterUnit>)
    ensures covered == Covered(pending, joined, true) && rest == Covered(pending, joined, false)
  {
    covered, rest := [], pending;
    var at := 0;
    ghost var done := 0;
    while at < |rest|
      invariant at <= |rest| && done <= |pending|
      invariant covered == Covered(pending[..done], joined, true)
      invariant rest[..at] == Covered(pending[..done], joined, false)
      invariant rest[at..] == pending[done..]
      decreases |rest| - at
    {
      assert rest[at] == rest[at..][0] == pending[done];
      assert pending[..done + 1][..done] == pending[..done];
      assert pending[done..][1..] == pending[done + 1..];
      if Refs(rest[at]) <= joined {
        covered := covered + [rest[at]];
        rest := rest[..at] + rest[at + 1..];
      } else {
        assert rest[..at + 1] == rest[..at] + [rest[at]];
        at := at + 1;
      }
      done := done + 1;
    }
    assert rest == rest[..at] && pending[..done] == pending;
  }

  /** The scan of a table under its own filters. */
  method TableAccess(t: string, tableFilters: map<string, seq<FilterUnit>>, ghost us: seq<FilterUnit>) returns (access: Op)
    requires UnitsAt(us, AtTable(t)) == if t in tableFilters then tableFilters[t] else []
    ensures access == Access(t, us)
  {
    access := Op(TableGet(t, []), [], []);
    if t in tableFilters && tableFilters[t] != [] {
      access := Op(Predicate, [Conj(And, BuildAll(tableFilters[t]))], [access]);
    }
  }

  /** One round of the join loop: join the last table of `ts`, then apply the join filters that are now covered. */
  method JoinNext(ghost ts: seq<string>, ghost us: seq<FilterUnit>, access: Op, tableOper: Option<Op>, joinFilters: seq<FilterUnit>,
                  joined: set<string>) returns (op: Op, rest: seq<FilterUnit>)
    requires ts != [] && joined == Names(ts) && access == Access(ts[|ts| - 1], us)
    requires |ts| == 1 ==> joinFilters == UnitsAt(us, AtJoin) && tableOper.None?
    requires |ts| > 1 ==> tableOper.Some? && Tree(tableOper.value, joinFilters) == JoinTree(ts[..|ts| - 1], us)
    ensures Tree(op, rest) == JoinTree(ts, us)
  {
    op := if tableOper.None? then access else Op(Join, [], [tableOper.value, access]);
    rest := joinFilters;
    if joinFilters != [] {
      var covered;
      covered, rest := Extract(joinFilters, joined);
      if covered != [] {
        op := Op(Predicate, [Conj(And, BuildAll(covered))], [op]);
      }
    }
  }

  lemma NamesPrefix(ts: seq<string>, i: nat)
    requires i < |ts|
    ensures Names(ts[..i + 1]) == Names(ts[..i]) + {ts[i]}
  {
    assert ts[..i + 1] == ts[..i] + [ts[i]];
    forall t ensures t in Names(ts[..i + 1]) <==> t in Names(ts[..i]) + {ts[i]} {
    }
  }

  /** The body of the loop over the tables. */
  method AddTable(ts: seq<string>, i: nat, ghost us: seq<FilterUnit>, tableFilters: map<string, seq<FilterUnit>>,
                  tableOper: Option<Op>, joinFilters: seq<FilterUnit>, before: set<string>)
    returns (op: Op, rest: seq<FilterUnit>, joined: set<string>)
    requires i < |ts| && before == Names(ts[..i])
    requires UnitsAt(us, AtTable(ts[i])) == if ts[i] in tableFilters then tableFilters[ts[i]] else []
    requires i == 0 ==> joinFilters == UnitsAt(us, AtJoin) && tableOper.None?
    requires i > 0 ==> tableOper.Some? && Tree(tableOper.value, joinFilters) == JoinTree(ts[..i], us)
    ensures joined == Names(ts[..i + 1]) && Tree(op, rest) == JoinTree(ts[..i + 1], us)
  {
    assert ts[..i + 1][..i] == ts[..i];
    var access := TableAccess(ts[i], tableFilters, us);
    joined := before + {ts[i]};
    NamesPrefix(ts, i);
    op, rest := JoinNext(ts[..i + 1], us, access, tableOper, joinFilters, joined);
  }

  /** The loop over the tables. */
  method JoinAll(ts: seq<string>, us: seq<FilterUnit>, tableFilters: map<string, seq<FilterUnit>>, joinFilters: seq<FilterUnit>)
    returns (op: Op, rest: seq<FilterUnit>)
    requires ts != [] && joinFilters == UnitsAt(us, AtJoin)
    requires forall t :: UnitsAt(us, AtTable(t)) == if t in tableFilters then tableFilters[t] else []
    ensures Tree(op, rest) == JoinTree(ts, us)
  {
    var joined;
    assert Names(ts[..0]) == {};
    op, rest, joined := AddTable(ts, 0, us, tableFilters, None, joinFilters, {});
    for i := 1 to |ts|
      invariant joined == Names(ts[..i]) && Tree(op, rest) == JoinTree(ts[..i], us)
    {
      op, rest, joined := AddTable(ts, i, us, tableFilters, Some(op), rest, joined);
    }
    assert ts[..|ts|] == ts;
  }

  /** `create_plan` of a SELECT. */
  method CreatePlan(ts: seq<string>, us: seq<FilterUnit>, project: OpKind) returns (plan: Op)
    ensures plan == Plan(ts, us, project)
  {
    var tableFilters, joinFilters, exprFilters := Partition(us);
    var tableOper := [];
    if ts != [] {
      var op;
      op, joinFilters := JoinAll(ts, us, tableFilters, joinFilters);
      tableOper := [op];
    }
    if joinFilters != [] || exprFilters != [] {
      var top := LegacyAll(joinFilters) + BuildAll(exprFilters);
      tableOper := [Op(Predicate, [Conj(And, top)], tableOper)];
    }
    plan := Op(project, [], tableOper);
  }

  // --- Meaning of the plan ---

  /** The cross product of the listed tables, row-major. */
  function Cross(db: Database, ts: seq<string>): seq<Tuple>
    requires ts != []
  {
    var n := |ts| - 1;
    if n == 0 then Scan(db, ts[0]) else Product(Cross(db, ts[..n]), Scan(db, ts[n]))
  }

  predicate DistinctNames(ts: seq<string>) {
    && "" !in ts
    && forall i, j :: 0 <= i < j < |ts| ==> ts[i] != ts[j]
  }

  /** A unit whose clone means the same: no subquery predicate hidden inside a larger expression. */
  predicate Copyable(u: FilterUnit) {
    (u.Custom? && u.e.Runtime?) || NoRuntime(Meaning(u))
  }

  ghost predicate Copyables(ts: seq<string>, us: seq<FilterUnit>) {
    && ts != [] && DistinctNames(ts)
    && forall u :: u in us ==> Copyable(u)
  }

  /** Distinct tables, and units that mention only listed tables. */
  ghost predicate Plannable(ts: seq<string>, us: seq<FilterUnit>) {
    && Copyables(ts, us)
    && forall u :: u in us ==> Refs(u) <= Names(ts)
  }

  function Meanings(us: seq<FilterUnit>): (r: seq<Expr>)
    ensures |r| == |us| && forall i :: 0 <= i < |us| ==> r[i] == Meaning(us[i])
  {
    seq(|us|, i requires 0 <= i < |us| => Meaning(us[i]))
  }

  /** The units that the plan applies at all. */
  function Kept(us: seq<FilterUnit>): seq<FilterUnit> {
    if us == [] then [] else Kept(us[..|us| - 1]) + (if PlaceOf(us[|us| - 1]).Nowhere? then [] else [us[|us| - 1]])
  }

  /** The units applied once the tables `joined` are in the tree. */
  predicate Due(u: FilterUnit, joined: set<string>) {
    match PlaceOf(u)
    case AtTable(t) => t in joined
    case AtJoin => Refs(u) <= joined
    case _ => false
  }

  function DueUnits(us: seq<FilterUnit>, joined: set<string>): seq<FilterUnit> {
    if us == [] then [] else DueUnits(us[..|us| - 1], joined) + (if Due(us[|us| - 1], joined) then [us[|us| - 1]] else [])
  }

  lemma {:induction false} UnitsAtMember(us: seq<FilterUnit>, place: Place, u: FilterUnit)
    ensures u in UnitsAt(us, place) <==> u in us && PlaceOf(u) == place
  {
    if us != [] { UnitsAtMember(us[..|us| - 1], place, u); assert us == us[..|us| - 1] + [us[|us| - 1]]; }
  }

  lemma {:induction false} CoveredMember(us: seq<FilterUnit>, joined: set<string>, inside: bool, u: FilterUnit)
    ensures u in Covered(us, joined, inside) <==> u in us && (Refs(u) <= joined) == inside
  {
    if us != [] { CoveredMember(us[..|us| - 1], joined, inside, u); assert us == us[..|us| - 1] + [us[|us| - 1]]; }
  }

  lemma {:induction false} DueMember(us: seq<FilterUnit>, joined: set<string>, u: FilterUnit)
    ensures u in DueUnits(us, joined) <==> u in us && Due(u, joined)
  {
    if us != [] { DueMember(us[..|us| - 1], joined, u); assert us == us[..|us| - 1] + [us[|us| - 1]]; }
  }

  lemma {:induction false} KeptMember(us: seq<FilterUnit>, u: FilterUnit)
    ensures u in Kept(us) <==> u in us && !PlaceOf(u).Nowhere?
  {
    if us != [] { KeptMember(us[..|us| - 1], u); assert us == us[..|us| - 1] + [us[|us| - 1]]; }
  }

  lemma BuiltMeans(u: FilterUnit)
    requires Copyable(u)
    ensures Build(u) == Meaning(u) && TableRefs(Build(u)) == Refs(u)
    ensures Refs(u) != {} ==> NoRuntime(Build(u))
  {
    match u
    case Custom(e) => CloneIsCopy(e);
    case ExprBased(_, l, r) => CloneIsCopy(l); CloneIsCopy(r);
    case Objects(_, l, r) =>
  }

  ghost predicate PassUnits(env: Env, us: seq<FilterUnit>, t: Tuple) {
    forall u :: u in us ==> Keep(env, Build(u), t)
  }

  lemma KeepBuilt(env: Env, us: seq<FilterUnit>, t: Tuple)
    ensures KeepAll(env, BuildAll(us), t) == PassUnits(env, us, t)
  {
    var es := BuildAll(us);
    KeepAllMembers(env, es, t);
    if KeepAll(env, es, t) {
      forall u | u in us ensures Keep(env, Build(u), t) {
        var i :| 0 <= i < |us| && us[i] == u;
        assert es[i] in es;
      }
    }
    if PassUnits(env, us, t) {
      forall e | e in es ensures Keep(env, e, t) {
        var i :| 0 <= i < |es| && es[i] == e;
        assert us[i] in us;
      }
    }
  }

  lemma WrapRows(env: Env, db: Database, us: seq<FilterUnit>, op: Op)
    ensures Rows(env, db, Wrap(BuildAll(us), op)) == Select(env, Rows(env, db, op), BuildAll(us))
  {
    if us == [] {
      assert BuildAll(us) == [];
      SelectNothing(env, Rows(env, db, op));
    } else {
      SelectAnd(env, Rows(env, db, op), BuildAll(us));
    }
  }

  lemma {:induction false} CrossTables(db: Database, ts: seq<string>, t: Tuple)
    requires ts != [] && t in Cross(db, ts)
    ensures Tables(t) == Names(ts)
  {
    var n := |ts| - 1;
    if n == 0 {
      assert ts == [ts[0]];
    } else {
      ProductMember(Cross(db, ts[..n]), Scan(db, ts[n]), t);
      CrossTables(db, ts[..n], t.left);
      assert ts == ts[..n] + [ts[n]];
    }
  }

  lemma {:induction false} PendingMember(ts: seq<string>, us: seq<FilterUnit>, u: FilterUnit)
    requires ts != []
    ensures u in JoinTree(ts, us).pending <==> u in us && PlaceOf(u) == AtJoin && !(Refs(u) <= Names(ts))
  {
    var n := |ts| - 1;
    var before := if n == 0 then UnitsAt(us, AtJoin) else JoinTree(ts[..n], us).pending;
    CoveredMember(before, Names(ts), false, u);
    UnitsAtMember(us, AtJoin, u);
    if n > 0 {
      PendingMember(ts[..n], us, u);
      assert Names(ts[..n]) <= Names(ts);
    }
  }

  /** A unit on the tables of one side of a join decides there what it would decide on the pair. */
  lemma KeepOnSide(env: Env, u: FilterUnit, whole: Tuple, part: Tuple)
    requires Copyable(u) && Refs(u) != {} && SidesWith(whole, part, Refs(u))
    ensures Keep(env, Build(u), whole) == Keep(env, Build(u), part)
  {
    BuiltMeans(u);
    Locality(env, Build(u), whole, part);
  }

  /** Adding a table: the filters so far act on the left, the new table's filters on the right. */
  lemma JoinSplits(env: Env, db: Database, ts: seq<string>, us: seq<FilterUnit>, fs: seq<FilterUnit>, gs: seq<FilterUnit>)
    requires Copyables(ts, us) && |ts| > 1
    requires fs == DueUnits(us, Names(ts[..|ts| - 1])) && gs == UnitsAt(us, AtTable(ts[|ts| - 1]))
    ensures Splits(env, Cross(db, ts[..|ts| - 1]), Scan(db, ts[|ts| - 1]), BuildAll(fs + gs), BuildAll(fs), BuildAll(gs))
  {
    var n := |ts| - 1;
    var joined := Names(ts[..n]);
    forall l, r | l in Cross(db, ts[..n]) && r in Scan(db, ts[n])
      ensures KeepAll(env, BuildAll(fs + gs), Joined(l, r)) == (KeepAll(env, BuildAll(fs), l) && KeepAll(env, BuildAll(gs), r))
    {
      CrossTables(db, ts[..n], l);
      var t := Joined(l, r);
      forall u | u in fs ensures Keep(env, Build(u), t) == Keep(env, Build(u), l) {
        DueMember(us, joined, u);
        KeepOnSide(env, u, t, l);
      }
      forall u | u in gs ensures Keep(env, Build(u), t) == Keep(env, Build(u), r) {
        UnitsAtMember(us, AtTable(ts[n]), u);
        KeepOnSide(env, u, t, r);
      }
      KeepBuilt(env, fs + gs, t);
      KeepBuilt(env, fs, l);
      KeepBuilt(env, gs, r);
    }
  }

  lemma SelectUnitsSame(env: Env, rows: seq<Tuple>, fs: seq<FilterUnit>, gs: seq<FilterUnit>)
    requires forall u :: u in fs <==> u in gs
    ensures Select(env, rows, BuildAll(fs)) == Select(env, rows, BuildAll(gs))
  {
    forall t | t in rows ensures KeepAll(env, BuildAll(fs), t) == KeepAll(env, BuildAll(gs), t) {
      KeepBuilt(env, fs, t);
      KeepBuilt(env, gs, t);
    }
    SelectSame(env, rows, BuildAll(fs), BuildAll(gs));
  }

  /** The join filters still pending before the last table is joined. */
  function PendingBefore(ts: seq<string>, us: seq<FilterUnit>): seq<FilterUnit>
    requires ts != []
  {
    if |ts| == 1 then UnitsAt(us, AtJoin) else JoinTree(ts[..|ts| - 1], us).pending
  }

  /** The filters applied by the time the last table is joined, before newly covered join filters. */
  function AppliedBefore(ts: seq<string>, us: seq<FilterUnit>): seq<FilterUnit>
    requires ts != []
  {
    (if |ts| == 1 then [] else DueUnits(us, Names(ts[..|ts| - 1]))) + UnitsAt(us, AtTable(ts[|ts| - 1]))
  }

  /** Filters applied earlier, those of the new table and those newly covered are the filters due now. */
  lemma AppliedIsDue(ts: seq<string>, us: seq<FilterUnit>, u: FilterUnit)
    requires ts != []
    ensures u in AppliedBefore(ts, us) + Covered(PendingBefore(ts, us), Names(ts), true) <==> u in DueUnits(us, Names(ts))
  {
    var n := |ts| - 1;
    DueMember(us, Names(ts), u);
    UnitsAtMember(us, AtTable(ts[n]), u);
    UnitsAtMember(us, AtJoin, u);
    CoveredMember(PendingBefore(ts, us), Names(ts), true, u);
    NamesPrefix(ts, n);
    assert ts[..n + 1] == ts;
    if n > 0 {
      DueMember(us, Names(ts[..n]), u);
      PendingMember(ts[..n], us, u);
    } else {
      assert Names(ts) == {ts[0]};
      if PlaceOf(u) == AtJoin {
        OneTableNoJoin(u, ts[0]);
      }
    }
  }

  lemma OneTableNoJoin(u: FilterUnit, t: string)
    requires PlaceOf(u) == AtJoin
    ensures !(Refs(u) <= {t})
  {
    assert |{t}| == 1;
    assert Refs(u) <= {t} && t in Refs(u) ==> Refs(u) == {t};
  }

  lemma AccessRows(env: Env, db: Database, t: string, us: seq<FilterUnit>)
    ensures Rows(env, db, Access(t, us)) == Select(env, Scan(db, t), BuildAll(UnitsAt(us, AtTable(t))))
  {
    WrapRows(env, db, UnitsAt(us, AtTable(t)), Op(TableGet(t, []), [], []));
    SelectNothing(env, Scan(db, t));
  }

  /** Filtering a filtered operator once more. */
  lemma WrapSelect(env: Env, db: Database, rows: seq<Tuple>, op: Op, gs: seq<FilterUnit>, fs: seq<FilterUnit>, all: seq<FilterUnit>)
    requires Rows(env, db, op) == Select(env, rows, BuildAll(gs))
    requires forall u :: u in all <==> u in gs + fs
    ensures Rows(env, db, Wrap(BuildAll(fs), op)) == Select(env, rows, BuildAll(all))
  {
    WrapRows(env, db, fs, op);
    SelectTwice(env, rows, BuildAll(gs), BuildAll(fs));
    assert BuildAll(gs) + BuildAll(fs) == BuildAll(gs + fs);
    SelectUnitsSame(env, rows, gs + fs, all);
  }

  /** The tree once the last table is joined, before newly covered join filters are put on it. */
  function BeforeOp(ts: seq<string>, us: seq<FilterUnit>): Op
    requires ts != []
  {
    var n := |ts| - 1;
    if n == 0 then Access(ts[0], us) else Op(Join, [], [JoinTree(ts[..n], us).op, Access(ts[n], us)])
  }

  lemma {:induction false} BeforeRows(env: Env, db: Database, ts: seq<string>, us: seq<FilterUnit>)
    requires Copyables(ts, us)
    ensures Rows(env, db, BeforeOp(ts, us)) == Select(env, Cross(db, ts), BuildAll(AppliedBefore(ts, us)))
    decreases |ts|, 0
  {
    var n := |ts| - 1;
    AccessRows(env, db, ts[n], us);
    var gs := UnitsAt(us, AtTable(ts[n]));
    if n == 0 {
      assert AppliedBefore(ts, us) == gs;
    } else {
      var fs := DueUnits(us, Names(ts[..n]));
      JoinTreeRows(env, db, ts[..n], us);
      JoinSplits(env, db, ts, us, fs, gs);
      SelectProduct(env, Cross(db, ts[..n]), Scan(db, ts[n]), BuildAll(fs + gs), BuildAll(fs), BuildAll(gs));
    }
  }

  /** After each table the tree delivers the cross product so far under all filters due so far. */
  lemma {:induction false} JoinTreeRows(env: Env, db: Database, ts: seq<string>, us: seq<FilterUnit>)
    requires Copyables(ts, us)
    ensures Rows(env, db, JoinTree(ts, us).op) == Select(env, Cross(db, ts), BuildAll(DueUnits(us, Names(ts))))
    decreases |ts|, 1
  {
    var covered := Covered(PendingBefore(ts, us), Names(ts), true);
    BeforeRows(env, db, ts, us);
    forall u ensures u in DueUnits(us, Names(ts)) <==> u in AppliedBefore(ts, us) + covered {
      AppliedIsDue(ts, us, u);
    }
    WrapSelect(env, db, Cross(db, ts), BeforeOp(ts, us), AppliedBefore(ts, us), covered, DueUnits(us, Names(ts)));
    assert JoinTree(ts, us).op == Wrap(BuildAll(covered), BeforeOp(ts, us));
  }

  /** No join filter is left when every unit mentions listed tables only. */
  lemma NothingPending(ts: seq<string>, us: seq<FilterUnit>)
    requires Plannable(ts, us)
    ensures JoinTree(ts, us).pending == []
  {
    var pending := JoinTree(ts, us).pending;
    if pending != [] {
      assert pending[0] in pending;
      PendingMember(ts, us, pending[0]);
    }
  }

  lemma BuiltAllMean(us: seq<FilterUnit>)
    requires forall u :: u in us ==> Copyable(u)
    ensures BuildAll(us) == Meanings(us)
  {
    forall i | 0 <= i < |us| ensures BuildAll(us)[i] == Meanings(us)[i] {
      BuiltMeans(us[i]);
    }
  }

  /** The plan delivers the filtered cross product, in row-major order. */
  lemma PlanRows(env: Env, db: Database, ts: seq<string>, us: seq<FilterUnit>, project: OpKind)
    requires Plannable(ts, us) && project.Project?
    ensures Rows(env, db, Plan(ts, us, project)) == Select(env, Cross(db, ts), Meanings(Kept(us)))
  {
    var tree := JoinTree(ts, us);
    var due, top := DueUnits(us, Names(ts)), UnitsAt(us, OnTop);
    JoinTreeRows(env, db, ts, us);
    forall u ensures u in Kept(us) <==> u in due + top {
      DueMember(us, Names(ts), u);
      UnitsAtMember(us, OnTop, u);
      KeptMember(us, u);
    }
    WrapSelect(env, db, Cross(db, ts), tree.op, due, top, Kept(us));
    forall u | u in Kept(us) ensures Copyable(u) {
      KeptMember(us, u);
    }
    BuiltAllMean(Kept(us));
    NothingPending(ts, us);
    assert LegacyAll(tree.pending) + BuildAll(top) == BuildAll(top);
  }

  // --- Dropped comparisons of literals ---

  /** A comparison of two literals that is true. */
  predicate LiteralTruth(env: Env, u: FilterUnit) {
    u.Objects? && u.l.Literal? && u.r.Literal? && CompareValues(env, u.comp, u.l.v, u.r.v) == Some(Boolean(true))
  }

  ghost predicate DroppedAreTrue(env: Env, us: seq<FilterUnit>) {
    forall u :: u in us && PlaceOf(u).Nowhere? ==> LiteralTruth(env, u)
  }

  lemma KeepLiteral(env: Env, u: FilterUnit, t: Tuple)
    requires PlaceOf(u).Nowhere?
    ensures Keep(env, Meaning(u), t) == LiteralTruth(env, u)
  {
    assert ObjRefs(u.l) == {} && ObjRefs(u.r) == {};
    var l, r := Const(u.l.v), Const(u.r.v);
    assert Eval(env, l, t) == Some(u.l.v) && Eval(env, r, t) == Some(u.r.v);
    assert Eval(env, Compare(u.comp, l, r), t) == CompareValues(env, u.comp, u.l.v, u.r.v);
  }

  lemma KeepSnoc(env: Env, us: seq<FilterUnit>, u: FilterUnit, t: Tuple)
    ensures KeepAll(env, Meanings(us + [u]), t) <==> KeepAll(env, Meanings(us), t) && Keep(env, Meaning(u), t)
  {
    assert Meanings(us + [u]) == Meanings(us) + [Meaning(u)];
    KeepAllConcat(env, Meanings(us), [Meaning(u)], t);
    assert [Meaning(u)][1..] == [];
  }

  lemma {:induction false} KeepDropped(env: Env, us: seq<FilterUnit>, t: Tuple)
    ensures KeepAll(env, Meanings(us), t) <==> KeepAll(env, Meanings(Kept(us)), t) && DroppedAreTrue(env, us)
  {
    if us == [] {
      assert Kept(us) == us;
    } else {
      var n := |us| - 1;
      var u := us[n];
      KeepDropped(env, us[..n], t);
      assert us == us[..n] + [u];
      KeepSnoc(env, us[..n], u, t);
      if PlaceOf(u).Nowhere? {
        assert Kept(us) == Kept(us[..n]);
        assert DroppedAreTrue(env, us) <==> DroppedAreTrue(env, us[..n]) && LiteralTruth(env, u);
        KeepLiteral(env, u, t);
      } else {
        KeepSnoc(env, Kept(us[..n]), u, t);
        assert DroppedAreTrue(env, us) <==> DroppedAreTrue(env, us[..n]);
      }
    }
  }

  /**
    Against the whole WHERE clause the plan is right exactly when the dropped literal comparisons
    are true, or no row of the cross product passes the other filters anyway.
   */
  lemma PlanExact(env: Env, db: Database, ts: seq<string>, us: seq<FilterUnit>, project: OpKind)
    requires Plannable(ts, us) && project.Project?
    ensures Rows(env, db, Plan(ts, us, project)) == Select(env, Cross(db, ts), Meanings(us))
            <==> DroppedAreTrue(env, us) || Select(env, Cross(db, ts), Meanings(Kept(us))) == []
  {
    PlanRows(env, db, ts, us, project);
    forall t ensures KeepAll(env, Meanings(us), t) <==> KeepAll(env, Meanings(Kept(us)), t) && DroppedAreTrue(env, us) {
      KeepDropped(env, us, t);
    }
    if DroppedAreTrue(env, us) {
      SelectSame(env, Cross(db, ts), Meanings(us), Meanings(Kept(us)));
    } else {
      SelectNone(env, Cross(db, ts), Meanings(us));
    }
  }

  // --- Every unit is placed once ---

  /** The filter expressions of all predicates of a plan. */
  function Filters(op: Op): multiset<Expr> {
    match op.kind
    case TableGet(_, predicates) => multiset(predicates)
    case Predicate =>
      if |op.exprs| == 1 && op.exprs[0].Conj? && |op.children| == 1
      then Filters(op.children[0]) + multiset(op.exprs[0].children)
      else multiset{}
    case Join => if |op.children| == 2 then Filters(op.children[0]) + Filters(op.children[1]) else multiset{}
    case _ => if op.children == [] then multiset{} else Filters(op.children[0])
  }

  function Built(us: seq<FilterUnit>): multiset<Expr> {
    multiset(BuildAll(us))
  }

  function One(u: FilterUnit, c: bool): multiset<Expr> {
    if c then multiset{Build(u)} else multiset{}
  }

  lemma BuiltSnoc(us: seq<FilterUnit>, u: FilterUnit, c: bool)
    ensures Built(us + if c then [u] else []) == Built(us) + One(u, c)
  {
    if c {
      assert BuildAll(us + [u]) == BuildAll(us) + [Build(u)];
    } else {
      assert us + [] == us;
    }
  }

  lemma WrapFilters(us: seq<FilterUnit>, op: Op)
    ensures Filters(Wrap(BuildAll(us), op)) == Filters(op) + Built(us)
  {
  }

  /** Pending join filters, as a filter of the whole clause. */
  lemma {:induction false} CoveredTwice(us: seq<FilterUnit>, a: set<string>, b: set<string>)
    requires a <= b
    ensures Covered(Covered(us, a, false), b, false) == Covered(us, b, false)
  {
    if us != [] {
      CoveredTwice(us[..|us| - 1], a, b);
      CoveredSnoc(Covered(us[..|us| - 1], a, false), us[|us| - 1], b);
    }
  }

  lemma CoveredSnoc(us: seq<FilterUnit>, u: FilterUnit, joined: set<string>)
    ensures forall inside: bool ::
              Covered(us + [u], joined, inside) == Covered(us, joined, inside) + if (Refs(u) <= joined) == inside then [u] else []
    ensures us + [] == us
  {
    assert (us + [u])[..|us|] == us;
  }

  lemma {:induction false} PendingIs(ts: seq<string>, us: seq<FilterUnit>)
    requires ts != []
    ensures JoinTree(ts, us).pending == Covered(UnitsAt(us, AtJoin), Names(ts), false)
  {
    var n := |ts| - 1;
    if n > 0 {
      PendingIs(ts[..n], us);
      CoveredTwice(UnitsAt(us, AtJoin), Names(ts[..n]), Names(ts));
    }
  }

  lemma CompletedSnoc(us: seq<FilterUnit>, u: FilterUnit, c: bool, a: set<string>, b: set<string>)
    ensures Built(Covered(Covered(us + (if c then [u] else []), a, false), b, true))
            == Built(Covered(Covered(us, a, false), b, true))
               + One(u, c && !(Refs(u) <= a) && Refs(u) <= b)
  {
    CoveredSnoc(us, u, a);
    CoveredSnoc(Covered(us, a, false), u, b);
    BuiltSnoc(Covered(Covered(us, a, false), b, true), u, c && !(Refs(u) <= a) && Refs(u) <= b);
    assert Covered(us, a, false) + [] == Covered(us, a, false);
  }

  lemma DueOnce(u: FilterUnit, joined: set<string>, x: string)
    requires x !in joined
    ensures One(u, Due(u, joined + {x})) == One(u, Due(u, joined)) + One(u, PlaceOf(u) == AtTable(x))
              + One(u, PlaceOf(u) == AtJoin && !(Refs(u) <= joined) && Refs(u) <= joined + {x})
  {
  }

  lemma Regroup<T>(a: multiset<T>, b: multiset<T>, c: multiset<T>, x: multiset<T>, y: multiset<T>, z: multiset<T>)
    ensures (a + b + c) + (x + y + z) == (a + x) + (b + y) + (c + z)
  {
  }

  /** The units that become due with the table `x`: its own and the join filters it completes. */
  lemma {:induction false} DueGrows(us: seq<FilterUnit>, joined: set<string>, x: string)
    requires x !in joined
    ensures Built(DueUnits(us, joined + {x})) == Built(DueUnits(us, joined)) + Built(UnitsAt(us, AtTable(x)))
              + Built(Covered(Covered(UnitsAt(us, AtJoin), joined, false), joined + {x}, true))
  {
    if us != [] {
      var n := |us| - 1;
      var u := us[n];
      var js := UnitsAt(us[..n], AtJoin);
      DueGrows(us[..n], joined, x);
      BuiltSnoc(DueUnits(us[..n], joined + {x}), u, Due(u, joined + {x}));
      BuiltSnoc(DueUnits(us[..n], joined), u, Due(u, joined));
      BuiltSnoc(UnitsAt(us[..n], AtTable(x)), u, PlaceOf(u) == AtTable(x));
      CompletedSnoc(js, u, PlaceOf(u) == AtJoin, joined, joined + {x});
      DueOnce(u, joined, x);
      Regroup(Built(DueUnits(us[..n], joined)), Built(UnitsAt(us[..n], AtTable(x))),
              Built(Covered(Covered(js, joined, false), joined + {x}, true)),
              One(u, Due(u, joined)), One(u, PlaceOf(u) == AtTable(x)),
              One(u, PlaceOf(u) == AtJoin && !(Refs(u) <= joined) && Refs(u) <= joined + {x}));
    }
  }

  lemma {:induction false} NoneDue(us: seq<FilterUnit>)
    ensures DueUnits(us, {}) == []
    ensures Covered(UnitsAt(us, AtJoin), {}, false) == UnitsAt(us, AtJoin)
  {
    if us != [] {
      NoneDue(us[..|us| - 1]);
      CoveredSnoc(UnitsAt(us[..|us| - 1], AtJoin), us[|us| - 1], {});
    }
  }

  lemma {:induction false} TreeFilters(ts: seq<string>, us: seq<FilterUnit>)
    requires ts != [] && DistinctNames(ts)
    ensures Filters(JoinTree(ts, us).op) == Built(DueUnits(us, Names(ts)))
  {
    var n := |ts| - 1;
    var joined := Names(ts[..n]);
    assert Names(ts) == joined + {ts[n]} by { assert ts == ts[..n] + [ts[n]]; }
    DueGrows(us, joined, ts[n]);
    WrapFilters(UnitsAt(us, AtTable(ts[n])), Op(TableGet(ts[n], []), [], []));
    WrapFilters(Covered(PendingBefore(ts, us), Names(ts), true), BeforeOp(ts, us));
    if n == 0 {
      assert joined == {};
      NoneDue(us);
    } else {
      TreeFilters(ts[..n], us);
      PendingIs(ts[..n], us);
    }
    assert JoinTree(ts, us).op == Wrap(BuildAll(Covered(PendingBefore(ts, us), Names(ts), true)), BeforeOp(ts, us));
  }

  lemma DueOrOnTop(u: FilterUnit, joined: set<string>)
    requires Refs(u) <= joined
    ensures One(u, !PlaceOf(u).Nowhere?) == One(u, Due(u, joined)) + One(u, PlaceOf(u) == OnTop)
  {
  }

  lemma {:induction false} KeptBuilt(us: seq<FilterUnit>, joined: set<string>)
    requires forall u :: u in us ==> Refs(u) <= joined
    ensures Built(Kept(us)) == Built(DueUnits(us, joined)) + Built(UnitsAt(us, OnTop))
  {
    if us != [] {
      var n := |us| - 1;
      var u := us[n];
      KeptBuilt(us[..n], joined);
      BuiltSnoc(Kept(us[..n]), u, !PlaceOf(u).Nowhere?);
      BuiltSnoc(DueUnits(us[..n], joined), u, Due(u, joined));
      BuiltSnoc(UnitsAt(us[..n], OnTop), u, PlaceOf(u) == OnTop);
      assert u in us;
      DueOrOnTop(u, joined);
      Regroup(Built(DueUnits(us[..n], joined)), Built(UnitsAt(us[..n], OnTop)), multiset{},
              One(u, Due(u, joined)), One(u, PlaceOf(u) == OnTop), multiset{});
    }
  }

  /** The predicates of the plan hold each kept unit exactly as often as the WHERE clause. */
  lemma PlacedOnce(ts: seq<string>, us: seq<FilterUnit>, project: OpKind)
    requires Plannable(ts, us) && project.Project?
    ensures Filters(Plan(ts, us, project)) == Built(Kept(us))
  {
    var tree := JoinTree(ts, us);
    TreeFilters(ts, us);
    NothingPending(ts, us);
    assert LegacyAll(tree.pending) + BuildAll(UnitsAt(us, OnTop)) == BuildAll(UnitsAt(us, OnTop));
    WrapFilters(UnitsAt(us, OnTop), tree.op);
    KeptBuilt(us, Names(ts));
  }
}
