/**
  Plans on which every rule that the rewriter applies, in every pass, meets its condition: a
  condition on the plan alone, kept by rewriting.
 */
module PlanClass {
  import opened Options
  import opened Expressions
  import opened LogicalPlan
  import opened ExprRewriter
  import opened ExprClass
  import opened PlanRewriter

  /** Nothing inside can ever be pushed. */
  predicate Pushless(e: Expr)
    decreases e, 1
  {
    if e.Conj? then PushlessAll(e.children) else !Pushable(e)
  }

  predicate PushlessAll(es: seq<Expr>)
    decreases es, 0
  {
    es == [] || (Pushless(es[0]) && PushlessAll(es[1..]))
  }

  /** An OR that no rewriting collapses, or that has nothing to push if it does. */
  predicate FirmOr(es: seq<Expr>) {
    (|es| >= 2 && AllOpen(es)) || PushlessAll(es)
  }

  /** After pushing down, nothing pushable will appear (`all`: not even now). */
  predicate Settled(e: Expr, all: bool)
    decreases e, 1
  {
    if e.Conj? && e.kind.And? then SettledAll(e.children, all)
    else if e.Conj? then FirmOr(e.children)
    else all ==> !Pushable(e)
  }

  predicate SettledAll(es: seq<Expr>, all: bool)
    decreases es, 0
  {
    es == [] || (Settled(es[0], all) && SettledAll(es[1..], all))
  }

  lemma {:induction false} PushlessSettled(e: Expr, all: bool)
    requires Pushless(e)
    ensures Settled(e, all)
    decreases e, 1
  {
    if e.Conj? && e.kind.And? { PushlessSettledAll(e.children, all); }
  }

  lemma {:induction false} PushlessSettledAll(es: seq<Expr>, all: bool)
    requires PushlessAll(es)
    ensures SettledAll(es, all)
    decreases es, 0
  {
    if es != [] {
      PushlessSettled(es[0], all);
      PushlessSettledAll(es[1..], all);
    }
  }

  ghost predicate GoodExpr(env: Env, e: Expr) {
    WellTyped(e) && Orderly(env, e)
  }

  /** An OR of one condition, as a list of one value makes it: it collapses at the next visit. */
  predicate LoneOr(e: Expr) {
    e.Conj? && e.kind.Or? && |e.children| == 1 && !e.children[0].Conj?
  }

  /** Settled, or an OR of one. */
  predicate Near(e: Expr) {
    Settled(e, false) || LoneOr(e)
  }

  predicate NearAll(es: seq<Expr>) {
    es == [] || (Near(es[0]) && NearAll(es[1..]))
  }

  /** The next visit makes it near. */
  predicate Ready(e: Expr) {
    Near(e) || (e.Conj? && e.kind.And? && AllOpen(e.children) && NearAll(e.children))
  }

  /** Rewriting never makes a field out of something else. */
  lemma FieldKept(env: Env, e: Expr)
    requires WellTyped(e) && !e.Field?
    ensures !Rewrite(env, e).expr.Field?
  {
    TypesKept(env, e);
    if !BoolTyped(e) {
      assert FoldComparison(env, e) == Rewritten(e, false) && SimplifyConj(e) == Rewritten(e, false);
    }
  }

  lemma PushableKept(env: Env, e: Expr)
    requires WellTyped(e) && !e.Conj? && !Pushable(e)
    ensures !Rewrite(env, e).expr.Conj? && !Pushable(Rewrite(env, e).expr)
  {
    if e.Compare? && !FoldComparison(env, e).changed {
      if !e.left.Field? { FieldKept(env, e.left); }
      if !e.right.Field? { FieldKept(env, e.right); }
    }
  }

  lemma {:induction false} StripSettled(kind: ConjKind, es: seq<Expr>, all: bool)
    ensures PushlessAll(es) ==> PushlessAll(Strip(kind, es))
    ensures SettledAll(es, all) ==> SettledAll(Strip(kind, es), all)
    ensures AllOpen(es) ==> Strip(kind, es) == es
  {
    if es != [] {
      StripSettled(kind, es[1..], all);
      if Neutral(kind, es[0]) {
        assert Strip(kind, es) == Strip(kind, es[1..]) && !Open(es[0]);
      } else {
        assert Strip(kind, es)[1..] == Strip(kind, es[1..]) && Strip(kind, es)[0] == es[0];
        assert es == [es[0]] + es[1..];
      }
    }
  }

  /** What the conjunction rule makes of an orderly conjunction. */
  lemma RuleMakes(env: Env, e: Expr)
    requires Orderly(env, e) && e.Conj?
    ensures var fs, r := Strip(e.kind, e.children), SimplifyConj(e);
      || (IsBool(r.expr) && !r.changed)
      || (|fs| == 1 && r == Rewritten(fs[0], true))
      || (|fs| != 1 && r == Rewritten(Conj(e.kind, fs), false))
  {
    ArrangedGuard(env, e.kind, e.children);
    ScanIsStrip(e.kind, e.children);
  }

  /** The conjunction rule keeps both conditions. */
  lemma SimplifySettled(env: Env, e: Expr, all: bool)
    requires Orderly(env, e) && e.Conj?
    ensures Pushless(e) ==> Pushless(SimplifyConj(e).expr)
    ensures Settled(e, all) ==> Settled(SimplifyConj(e).expr, all)
  {
    RuleMakes(env, e);
    StripSettled(e.kind, e.children, all);
    var fs := Strip(e.kind, e.children);
    if |fs| == 1 && PushlessAll(e.children) { PushlessSettled(fs[0], all); }
  }

  lemma {:induction false} SettledKept(env: Env, e: Expr, all: bool)
    requires GoodExpr(env, e)
    ensures Pushless(e) ==> Pushless(Rewrite(env, e).expr)
    ensures Settled(e, all) ==> Settled(Rewrite(env, e).expr, all)
    decreases Size(e), 1
  {
    if !e.Conj? {
      if !Pushable(e) {
        PushableKept(env, e);
      } else {
        assert !Rewrite(env, e).expr.Conj?;
      }
    } else {
      SimplifySettled(env, e, all);
      RuleMakes(env, e);
      SimplifyOrderly(env, e);
      ScanTyped(e.kind, [], e.children);
      var s := SimplifyConj(e);
      if !s.changed && s.expr.Conj? {
        SettledKeptAll(env, s.expr.children, all);
        if AllOpen(s.expr.children) { AllOpenKept(env, s.expr.children); }
      }
    }
  }

  lemma {:induction false} SettledKeptAll(env: Env, es: seq<Expr>, all: bool)
    requires WellTypedAll(es) && OrderlyAll(env, es)
    ensures PushlessAll(es) ==> PushlessAll(RewriteAll(env, es).0)
    ensures SettledAll(es, all) ==> SettledAll(RewriteAll(env, es).0, all)
    decreases SizeAll(es), 2, |es|
  {
    if es != [] {
      SettledKept(env, es[0], all);
      SettledKeptAll(env, es[1..], all);
    }
  }

  /** An OR of one condition becomes that condition. */
  lemma LoneOrCollapses(env: Env, e: Expr)
    requires GoodExpr(env, e) && LoneOr(e)
    ensures Settled(Rewrite(env, e).expr, false)
  {
    RuleMakes(env, e);
    assert e.children[1..] == [];
  }

  lemma {:induction false} NearSettles(env: Env, es: seq<Expr>)
    requires WellTypedAll(es) && OrderlyAll(env, es) && NearAll(es)
    ensures SettledAll(RewriteAll(env, es).0, false)
  {
    if es != [] {
      if LoneOr(es[0]) { LoneOrCollapses(env, es[0]); } else { SettledKept(env, es[0], false); }
      NearSettles(env, es[1..]);
    }
  }

  /** A visit makes a ready expression near. */
  lemma ReadyNears(env: Env, e: Expr)
    requires GoodExpr(env, e) && Ready(e)
    ensures Near(Rewrite(env, e).expr)
  {
    if Settled(e, false) {
      SettledKept(env, e, false);
    } else if LoneOr(e) {
      LoneOrCollapses(env, e);
    } else {
      RuleMakes(env, e);
      StripSettled(e.kind, e.children, false);
      if |e.children| != 1 { NearSettles(env, e.children); }
    }
  }

  // --- Pushdown ---

  lemma {:induction false} NothingToPush(e: Expr)
    ensures Settled(e, true) ==> Collect(e).down == []
    decreases e, 1
  {
    if e.Conj? && e.kind.And? { NothingToPushAll(e.children); }
  }

  lemma {:induction false} NothingToPushAll(es: seq<Expr>)
    ensures SettledAll(es, true) ==> CollectAll(es).1 == []
    decreases es, 0
  {
    if es != [] { NothingToPush(es[0]); NothingToPushAll(es[1..]); }
  }

  lemma {:induction false} StripCollects(es: seq<Expr>)
    ensures Strip(And, CollectAll(es).0) == CollectAll(Strip(And, es)).0
  {
    if es != [] {
      StripCollects(es[1..]);
      var c := es[0];
      CollectAllCons(c, es[1..]);
      assert es == [c] + es[1..];
      if Neutral(And, c) {
        assert Strip(And, es) == Strip(And, es[1..]);
        assert CollectAll(es).0[0] == c && CollectAll(es).0[1..] == CollectAll(es[1..]).0;
      } else {
        CollectAllCons(c, Strip(And, es[1..]));
        assert Strip(And, es) == [c] + Strip(And, es[1..]);
        if Collect(c).rest.Some? {
          assert CollectAll(es).0[0] == Collect(c).rest.value && CollectAll(es).0[1..] == CollectAll(es[1..]).0;
        } else {
          assert CollectAll(es).0 == CollectAll(es[1..]).0;
        }
      }
    }
  }

  lemma AlwaysLeft(env: Env, e: Expr)
    requires BoolTyped(e) && WellTyped(e) && Always(env, e, true)
    ensures Always(env, LeftOver(e), true)
  {
    forall t ensures Eval(env, LeftOver(e), t) == Some(Boolean(true)) {
      CollectKeeps(env, e, t);
      assert Eval(env, e, t) == Some(Boolean(true));
      BoolValued(env, LeftOver(e), t);
    }
  }

  /** What remains obeys the same rules, stays open if it was, and holds nothing more to push. */
  lemma {:induction false} CollectGood(env: Env, e: Expr)
    requires GoodExpr(env, e)
    ensures GoodExpr(env, LeftOver(e)) && (BoolTyped(e) ==> BoolTyped(LeftOver(e)))
    ensures Open(e) && Collect(e).rest.Some? ==> Open(LeftOver(e))
    ensures Settled(e, false) ==> Settled(LeftOver(e), true)
    decreases e, 1
  {
    CollectOpen(e);
    if e.Conj? && e.kind.And? {
      CollectAllGood(env, e.children);
      CollectArranged(env, e.children);
    }
  }

  lemma {:induction false} CollectAllGood(env: Env, es: seq<Expr>)
    requires WellTypedAll(es) && OrderlyAll(env, es)
    ensures var rs := CollectAll(es).0;
      && WellTypedAll(rs) && OrderlyAll(env, rs)
      && (BenignAll(env, And, es) ==> BenignAll(env, And, rs))
      && (SettledAll(es, false) ==> SettledAll(rs, true))
    decreases es, 0
  {
    if es != [] {
      var c := es[0];
      var first, rest := Collect(c), CollectAll(es[1..]).0;
      CollectGood(env, c);
      CollectAllGood(env, es[1..]);
      if first.rest.Some? {
        assert LeftOver(c) == first.rest.value && ([first.rest.value] + rest)[1..] == rest;
        if Always(env, c, true) { AlwaysLeft(env, c); }
      } else {
        assert [] + rest == rest;
      }
    }
  }

  lemma {:induction false} CollectOpen(e: Expr)
    ensures Open(e) && Collect(e).rest.Some? ==> Open(LeftOver(e))
    decreases e, 1
  {
    if e.Conj? && e.kind.And? { CollectAllOpen(e.children); }
  }

  lemma {:induction false} CollectAllOpen(es: seq<Expr>)
    ensures AllOpen(es) ==> AllOpen(CollectAll(es).0)
    decreases es, 0
  {
    if es != [] {
      var first, rest := Collect(es[0]), CollectAll(es[1..]).0;
      CollectOpen(es[0]);
      CollectAllOpen(es[1..]);
      if first.rest.Some? {
        assert ([first.rest.value] + rest)[1..] == rest;
      } else {
        assert [] + rest == rest;
      }
    }
  }

  /** Collecting from sorted children leaves sorted children. */
  lemma {:induction false} CollectSorted(env: Env, es: seq<Expr>, low: nat)
    requires Sorted(env, es, low)
    ensures Sorted(env, CollectAll(es).0, low)
  {
    if es != [] {
      var c := es[0];
      var first, rest := Collect(c), CollectAll(es[1..]).0;
      CollectOpen(c);
      CollectSorted(env, es[1..], if Rank(env, c) == 2 then 3 else Rank(env, c));
      if first.rest.Some? {
        var r := first.rest.value;
        assert LeftOver(c) == r && ([r] + rest)[1..] == rest;
        if Open(r) { OpenNotFoldable(env, r); }
        if Rank(env, c) == 2 { SortedLower(env, rest, 3, 2); }
        RestRank(env, c);
      } else {
        assert [] + rest == rest;
        OpenNotFoldable(env, c);
        SortedLower(env, rest, 3, low);
      }
    }
  }

  lemma RestRank(env: Env, c: Expr)
    requires Collect(c).rest.Some?
    ensures Rank(env, c) <= 1 ==> LeftOver(c) == c
    ensures Rank(env, LeftOver(c)) == 2 || Rank(env, LeftOver(c)) == 3 || LeftOver(c) == c
  {
  }

  lemma CollectArranged(env: Env, es: seq<Expr>)
    requires Arranged(env, And, es)
    requires BenignAll(env, And, es) ==> BenignAll(env, And, CollectAll(es).0)
    ensures Arranged(env, And, CollectAll(es).0)
  {
    if Sorted(env, Strip(And, es), 0) {
      CollectSorted(env, Strip(And, es), 0);
      StripCollects(es);
    }
  }

  // --- Plans the rewriter handles ---

  /** Never becomes the constant false. */
  predicate Live(e: Expr) {
    Open(e) || e == Const(Boolean(true))
  }

  /**
    A predicate above a table scan pushes at most once into a scan without predicates (`near`: it
    was just visited); a predicate above another predicate has nothing to push, and the lower one is
    not removed as false.
   */
  predicate Fits(e: Expr, child: Op, near: bool) {
    match child.kind
    case TableGet(_, predicates) => Settled(e, true) || (predicates == [] && if near then Near(e) else Ready(e))
    case Predicate => Settled(e, true) && |child.exprs| == 1 && Live(child.exprs[0])
    case _ => true
  }

  /** Executable plans whose predicates keep the rewriter's assumptions. */
  ghost predicate Good(env: Env, op: Op, near: bool)
    decreases op
  {
    match op.kind
    case TableGet(_, _) => op.exprs == [] && op.children == []
    case Predicate =>
      && |op.exprs| == 1 && |op.children| == 1
      && BoolTyped(op.exprs[0]) && GoodExpr(env, op.exprs[0])
      && Fits(op.exprs[0], op.children[0], near)
      && Good(env, op.children[0], near)
    case Join => op.exprs == [] && |op.children| == 2 && Good(env, op.children[0], near) && Good(env, op.children[1], near)
    case _ => op.exprs == [] && |op.children| <= 1 && (|op.children| == 1 ==> Good(env, op.children[0], near))
  }

  /** `b` can take the place of `a` under any parent. */
  predicate Replaces(b: Op, a: Op) {
    match a.kind
    case TableGet(_, _) => b == a
    case Predicate => b.kind.Predicate? && |a.exprs| == 1 && |b.exprs| == 1 && (Live(a.exprs[0]) ==> Live(b.exprs[0]))
    case Join => b.kind.Join?
    case _ => b.kind == a.kind
  }

  ghost predicate GoodFor(env: Env, bs: seq<Op>, ops: seq<Op>, near: bool) {
    |bs| == |ops| && forall i :: 0 <= i < |ops| ==> Good(env, bs[i], near) && Replaces(bs[i], ops[i])
  }

  /** Replacing the children of a good operator. */
  lemma WithChildren(env: Env, op: Op, cs: seq<Op>, near: bool)
    requires Good(env, op, near) && GoodFor(env, cs, op.children, near)
    ensures Good(env, op.(children := cs), near) && Replaces(op.(children := cs), op)
  {
    if op.kind.TableGet? {
      assert cs == [];
    }
  }

  lemma {:induction false} Weaker(env: Env, op: Op)
    requires Good(env, op, true)
    ensures Good(env, op, false)
    decreases op
  {
    match op.kind
    case Predicate => Weaker(env, op.children[0]);
    case Join => Weaker(env, op.children[0]); Weaker(env, op.children[1]);
    case TableGet(_, _) =>
    case _ => if |op.children| == 1 { Weaker(env, op.children[0]); }
  }

  /** The children of a good operator. */
  lemma GoodChild(env: Env, op: Op, near: bool, i: nat)
    requires Good(env, op, near) && i < |op.children|
    ensures Good(env, op.children[i], near)
  {
  }

  lemma {:induction false} GoodExprsSafe(env: Env, op: Op)
    requires Good(env, op, false)
    ensures ExprsSafe(env, op.exprs)
  {
    if op.kind.Predicate? {
      OrderlyGuarded(env, op.exprs[0]);
      assert op.exprs[1..] == [];
    }
  }

  /** The expression pass: safe, and the predicates above scans are near afterwards. */
  lemma {:induction false} ExprPassGood(env: Env, op: Op)
    requires Good(env, op, false)
    ensures ExprPassSafe(env, op)
    ensures Good(env, ExprPass(env, op).op, true) && Replaces(ExprPass(env, op).op, op)
    decreases op, 1
  {
    GoodExprsSafe(env, op);
    forall i | 0 <= i < |op.children| ensures Good(env, op.children[i], false) { GoodChild(env, op, false, i); }
    ExprPassAllGood(env, op.children);
    if op.kind.Predicate? { PredicateVisited(env, op); }
  }

  lemma PredicateVisited(env: Env, op: Op)
    requires op.kind.Predicate? && Good(env, op, false)
    requires GoodFor(env, ExprPassAll(env, op.children).0, op.children, true)
    ensures Good(env, ExprPass(env, op).op, true) && Replaces(ExprPass(env, op).op, op)
  {
    var e := op.exprs[0];
    var e' := Rewrite(env, e).expr;
    assert op.exprs == [e] && op.exprs[1..] == [];
    assert RewriteAll(env, op.exprs).0 == [e'];
    TypesKept(env, e);
    OrderKept(env, e);
    SettledKept(env, e, true);
    if Ready(e) { ReadyNears(env, e); }
    if Open(e) { OpenKept(env, e); }
  }

  lemma {:induction false} ExprPassAllGood(env: Env, ops: seq<Op>)
    requires forall i :: 0 <= i < |ops| ==> Good(env, ops[i], false)
    ensures ExprPassSafeAll(env, ops) && GoodFor(env, ExprPassAll(env, ops).0, ops, true)
    decreases ops, 0
  {
    if ops != [] {
      ExprPassGood(env, ops[0]);
      ExprPassAllGood(env, ops[1..]);
      var r := ExprPassAll(env, ops).0;
      forall i | 0 <= i < |ops| ensures Good(env, r[i], true) && Replaces(r[i], ops[i]) {
        if i > 0 { assert ops[i] == ops[1..][i - 1] && r[i] == ExprPassAll(env, ops[1..]).0[i - 1]; }
      }
    }
  }

  lemma RemoveGood(env: Env, op: Op)
    requires Good(env, op, true)
    ensures RemoveSafe(env, op)
    ensures Good(env, RemovePredicate(env, op).op, true) && Replaces(RemovePredicate(env, op).op, op)
  {
    if OverConstant(op) {
      GoodChild(env, op, true, 0);
      GoodChild(env, op.children[0], true, 0);
    }
  }

  lemma PushdownGood(env: Env, op: Op)
    requires Good(env, op, true)
    ensures PushSafe(op)
    ensures Good(env, Pushdown(op).op, false) && Replaces(Pushdown(op).op, op)
  {
    Weaker(env, op);
    if OverTable(op) {
      var e := op.exprs[0];
      assert op.exprs == [e] && op.children == [op.children[0]];
      CollectGood(env, e);
      CollectSize(e);
      NothingToPush(e);
      if Collect(e).down == [] { assert Pushdown(op).op == op; }
    }
  }

  lemma RulesGood(env: Env, op: Op)
    requires Good(env, op, false)
    ensures RulesSafe(env, op)
    ensures Good(env, Rules(env, op).op, false) && Replaces(Rules(env, op).op, op)
  {
    var a := ExprPass(env, op).op;
    ExprPassGood(env, op);
    var b := RemovePredicate(env, a).op;
    RemoveGood(env, a);
    PushdownGood(env, b);
  }

  /** One pass over a good plan is safe and leaves a good plan. */
  lemma {:induction false} PassGood(env: Env, op: Op)
    requires Good(env, op, false)
    ensures PassSafe(env, op)
    ensures Good(env, RewritePlan(env, op).op, false) && Replaces(RewritePlan(env, op).op, op)
    decreases OpSize(op), 0
  {
    var top := Rules(env, op).op;
    RulesGood(env, op);
    forall i | 0 <= i < |top.children| ensures Good(env, top.children[i], false) { GoodChild(env, top, false, i); }
    PassAllGood(env, top.children);
    WithChildren(env, top, RewritePlans(env, top.children).0, false);
  }

  lemma {:induction false} PassAllGood(env: Env, ops: seq<Op>)
    requires forall i :: 0 <= i < |ops| ==> Good(env, ops[i], false)
    ensures PassSafeAll(env, ops) && GoodFor(env, RewritePlans(env, ops).0, ops, false)
    decreases OpSizeAll(ops), 1, |ops|
  {
    if ops != [] {
      PassGood(env, ops[0]);
      PassAllGood(env, ops[1..]);
      var r := RewritePlans(env, ops).0;
      forall i | 0 <= i < |ops| ensures Good(env, r[i], false) && Replaces(r[i], ops[i]) {
        if i > 0 { assert ops[i] == ops[1..][i - 1] && r[i] == RewritePlans(env, ops[1..]).0[i - 1]; }
      }
    }
  }

  /** On a good plan every rule of every pass meets its condition. */
  lemma {:induction false} GoodRunSafe(env: Env, op: Op)
    requires Good(env, op, false)
    ensures RunSafe(env, op)
    decreases OpSize(op)
  {
    PassGood(env, op);
    var pass := RewritePlan(env, op);
    if pass.changed { GoodRunSafe(env, pass.op); }
  }
}
