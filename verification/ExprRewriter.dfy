/**
  Expression rewriting: src/observer/sql/optimizer/expression_rewriter.cpp,
  comparison_simplification_rule.cpp and conjunction_simplification_rule.cpp.
 */
module ExprRewriter {
  import opened Options
  import opened Expressions

  // --- Size, the measure of the rewriting loop ---

  function Size(e: Expr): (n: nat)
    ensures n >= 1
    decreases e, 1
  {
    match e
    case Cast(child, _) => 1 + Size(child)
    case Arith(_, _, operands) => 1 + SizeAll(operands)
    case Compare(_, l, r) => 1 + Size(l) + Size(r)
    case Conj(_, children) => 1 + SizeAll(children)
    case Call(_, args) => 1 + SizeAll(args)
    case _ => 1
  }

  function SizeAll(es: seq<Expr>): (n: nat)
    ensures n >= |es|
    decreases es, 0
  {
    if es == [] then 0 else Size(es[0]) + SizeAll(es[1..])
  }

  lemma {:induction false} SizeAllConcat(es: seq<Expr>, fs: seq<Expr>)
    ensures SizeAll(es + fs) == SizeAll(es) + SizeAll(fs)
  {
    if es == [] {
      assert es + fs == fs;
    } else {
      assert (es + fs)[1..] == es[1..] + fs;
      SizeAllConcat(es[1..], fs);
    }
  }

  // --- The rules ---

  datatype Rewritten = Rewritten(expr: Expr, changed: bool)

  /** Constant folding of a comparison. */
  function FoldComparison(env: Env, e: Expr): (r: Rewritten)
    ensures Size(r.expr) <= Size(e) && (r.changed ==> Size(r.expr) < Size(e))
  {
    if e.Compare? && TryEval(env, e).Some? then Rewritten(Const(TryEval(env, e).value), true)
    else Rewritten(e, false)
  }

  predicate IsBool(e: Expr) {
    e.Const? && e.v.Boolean?
  }

  /** The constant that changes nothing in a conjunction of this kind. */
  predicate Neutral(kind: ConjKind, e: Expr) {
    IsBool(e) && e.v.b == kind.And?
  }

  predicate Absorbing(kind: ConjKind, e: Expr) {
    IsBool(e) && e.v.b != kind.And?
  }

  /** `kept` are the children already passed: neutral constants go, an absorbing one ends the scan with the front child. */
  datatype ScanResult = Front(e: Expr) | Remaining(es: seq<Expr>)

  function ScanChildren(kind: ConjKind, kept: seq<Expr>, rest: seq<Expr>): (r: ScanResult)
    ensures r.Remaining? ==> SizeAll(r.es) <= SizeAll(kept) + SizeAll(rest)
    ensures r.Front? ==> Size(r.e) <= SizeAll(kept) + SizeAll(rest)
    decreases |rest|
  {
    if rest == [] then Remaining(kept)
    else if Neutral(kind, rest[0]) then ScanChildren(kind, kept, rest[1..])
    else if Absorbing(kind, rest[0]) then Front(if kept == [] then rest[0] else kept[0])
    else
      SizeAllConcat(kept, [rest[0]]);
      assert SizeAll([rest[0]]) == Size(rest[0]) by { assert [rest[0]][1..] == []; }
      ScanChildren(kind, kept + [rest[0]], rest[1..])
  }

  function SimplifyConj(e: Expr): (r: Rewritten)
    ensures Size(r.expr) <= Size(e) && (r.changed ==> Size(r.expr) < Size(e))
  {
    if !e.Conj? then Rewritten(e, false)
    else
      match ScanChildren(e.kind, [], e.children)
      case Front(x) => Rewritten(x, false)
      case Remaining(es) =>
        if |es| == 1 then
          assert SizeAll(es) == Size(es[0]) by { assert es[1..] == []; }
          Rewritten(es[0], true)
        else Rewritten(Conj(e.kind, es), false)
  }

  /** `rewrite_expression`: the rules on the node itself, and only if they report no change, its operands. */
  function Rewrite(env: Env, e: Expr): (r: Rewritten)
    ensures Size(r.expr) <= Size(e) && (r.changed ==> Size(r.expr) < Size(e))
    decreases Size(e), 1
  {
    var folded := FoldComparison(env, e);
    var simple := SimplifyConj(folded.expr);
    if folded.changed || simple.changed then Rewritten(simple.expr, true)
    else Descend(env, simple.expr)
  }

  function Descend(env: Env, e: Expr): (r: Rewritten)
    ensures Size(r.expr) <= Size(e) && (r.changed ==> Size(r.expr) < Size(e))
    decreases Size(e), 0
  {
    match e
    case Cast(child, to) =>
      var c := Rewrite(env, child);
      Rewritten(Cast(c.expr, to), c.changed)
    case Compare(comp, l, r) =>
      var a := Rewrite(env, l);
      var b := Rewrite(env, r);
      Rewritten(Compare(comp, a.expr, b.expr), a.changed || b.changed)
    case Conj(kind, children) =>
      var cs := RewriteAll(env, children);
      Rewritten(Conj(kind, cs.0), cs.1)
    case _ => Rewritten(e, false)
  }

  function RewriteAll(env: Env, es: seq<Expr>): (r: (seq<Expr>, bool))
    ensures |r.0| == |es|
    ensures SizeAll(r.0) <= SizeAll(es) && (r.1 ==> SizeAll(r.0) < SizeAll(es))
    decreases SizeAll(es), 2, |es|
  {
    if es == [] then ([], false)
    else
      var first := Rewrite(env, es[0]);
      var rest := RewriteAll(env, es[1..]);
      assert ([first.expr] + rest.0)[1..] == rest.0;
      ([first.expr] + rest.0, first.changed || rest.1)
  }

  // --- The loops ---

  /** The erasing loop of the conjunction rule. */
  method SimplifyConjunction(kind: ConjKind, children: seq<Expr>) returns (expr: Expr, changed: bool)
    ensures Rewritten(expr, changed) == SimplifyConj(Conj(kind, children))
  {
    var childExprs := children;
    var at := 0;
    while at < |childExprs|
      invariant at <= |childExprs|
      invariant ScanChildren(kind, childExprs[..at], childExprs[at..]) == ScanChildren(kind, [], children)
      decreases |childExprs| - at
    {
      var e := childExprs[at];
      assert e == childExprs[at..][0] && childExprs[at..][1..] == childExprs[at + 1..];
      if !IsBool(e) {
        assert childExprs[..at + 1] == childExprs[..at] + [e];
        at := at + 1;
      } else if e.v.b == kind.And? {
        childExprs := childExprs[..at] + childExprs[at + 1..];
      } else {
        return childExprs[0], false;
      }
    }
    assert childExprs[..at] == childExprs && childExprs[at..] == [];
    if |childExprs| == 1 {
      return childExprs[0], true;
    }
    return Conj(kind, childExprs), false;
  }

  method RewriteExpression(env: Env, e: Expr) returns (expr: Expr, changed: bool)
    ensures Rewritten(expr, changed) == Rewrite(env, e)
    decreases Size(e)
  {
    expr, changed := e, false;
    if expr.Compare? && TryEval(env, expr).Some? {
      expr, changed := Const(TryEval(env, expr).value), true;
    }
    if expr.Conj? {
      expr, changed := SimplifyConjunction(expr.kind, expr.children);
    }
    if changed {
      return;
    }
    ghost var simple := expr;
    match expr
    case Cast(child, to) =>
      var c;
      c, changed := RewriteExpression(env, child);
      expr := Cast(c, to);
    case Compare(comp, l, r) =>
      var a, leftChanged := RewriteExpression(env, l);
      var b, rightChanged := RewriteExpression(env, r);
      expr, changed := Compare(comp, a, b), leftChanged || rightChanged;
    case Conj(kind, children) =>
      var cs := [];
      for i := 0 to |children|
        invariant cs == RewriteAll(env, children[..i]).0 && changed == RewriteAll(env, children[..i]).1
      {
        MemberSize(children, i);
        RewriteAllSnoc(env, children[..i], children[i]);
        assert children[..i + 1] == children[..i] + [children[i]];
        var c, sub := RewriteExpression(env, children[i]);
        cs := cs + [c];
        if sub && !changed {
          changed := true;
        }
      }
      assert children[..|children|] == children;
      expr := Conj(kind, cs);
    case _ =>
  }

  lemma {:induction false} MemberSize(es: seq<Expr>, i: nat)
    requires i < |es|
    ensures Size(es[i]) <= SizeAll(es)
  {
    if i > 0 { MemberSize(es[1..], i - 1); }
  }

  lemma RewriteAllCons(env: Env, h: Expr, t: seq<Expr>)
    ensures RewriteAll(env, [h] + t).0 == [Rewrite(env, h).expr] + RewriteAll(env, t).0
    ensures RewriteAll(env, [h] + t).1 == (Rewrite(env, h).changed || RewriteAll(env, t).1)
  {
    assert ([h] + t)[1..] == t;
  }

  /** `RewriteAll` of a list that ends in `e`. */
  ghost predicate EndsIn(env: Env, es: seq<Expr>, e: Expr) {
    && RewriteAll(env, es + [e]).0 == RewriteAll(env, es).0 + [Rewrite(env, e).expr]
    && RewriteAll(env, es + [e]).1 == (RewriteAll(env, es).1 || Rewrite(env, e).changed)
  }

  lemma EndsInCons(env: Env, h: Expr, t: seq<Expr>, e: Expr)
    requires EndsIn(env, t, e)
    ensures EndsIn(env, [h] + t, e)
  {
    Assoc([h], t, [e]);
    RewriteAllCons(env, h, t + [e]);
    RewriteAllCons(env, h, t);
    Assoc([Rewrite(env, h).expr], RewriteAll(env, t).0, [Rewrite(env, e).expr]);
  }

  lemma {:induction false} RewriteAllSnoc(env: Env, es: seq<Expr>, e: Expr)
    ensures EndsIn(env, es, e)
  {
    if es == [] {
      assert es + [e] == [e] + [];
      RewriteAllCons(env, e, []);
    } else {
      RewriteAllSnoc(env, es[1..], e);
      EndsInCons(env, es[0], es[1..], e);
      assert es == [es[0]] + es[1..];
    }
  }

  lemma {:induction false} RewriteAllAt(env: Env, es: seq<Expr>, i: nat)
    requires i < |es|
    ensures RewriteAll(env, es).0[i] == Rewrite(env, es[i]).expr
  {
    if i > 0 { RewriteAllAt(env, es[1..], i - 1); }
  }

  // --- Types ---

  /** Expressions whose value is a boolean. */
  predicate BoolTyped(e: Expr) {
    e.Compare? || e.Conj? || e.Runtime? || IsBool(e)
  }

  /** Conjunctions, as far as the rewriter descends, join boolean expressions. */
  predicate WellTyped(e: Expr)
    decreases e, 1
  {
    match e
    case Cast(child, _) => WellTyped(child)
    case Compare(_, l, r) => WellTyped(l) && WellTyped(r)
    case Conj(_, children) => WellTypedAll(children)
    case _ => true
  }

  predicate WellTypedAll(es: seq<Expr>)
    decreases es, 0
  {
    es == [] || (BoolTyped(es[0]) && WellTyped(es[0]) && WellTypedAll(es[1..]))
  }

  lemma {:induction false} BoolValued(env: Env, e: Expr, t: Tuple)
    requires BoolTyped(e)
    ensures Eval(env, e, t).Some? ==> Eval(env, e, t).value.Boolean?
  {
    if e.Conj? && e.children != [] {
      ConjBoolValued(env, e.kind, e.children, t);
    }
  }

  lemma {:induction false} ConjBoolValued(env: Env, kind: ConjKind, es: seq<Expr>, t: Tuple)
    ensures EvalConj(env, kind, es, t).Some? ==> EvalConj(env, kind, es, t).value.Boolean?
  {
    if es != [] { ConjBoolValued(env, kind, es[1..], t); }
  }

  lemma SingletonConj(env: Env, kind: ConjKind, e: Expr, t: Tuple)
    requires BoolTyped(e)
    ensures EvalConj(env, kind, [e], t) == Eval(env, e, t)
  {
    BoolValued(env, e, t);
    assert [e][1..] == [];
  }

  lemma {:induction false} TypedConcat(es: seq<Expr>, fs: seq<Expr>)
    ensures WellTypedAll(es + fs) <==> WellTypedAll(es) && WellTypedAll(fs)
  {
    if es == [] {
      assert es + fs == fs;
    } else {
      assert (es + fs)[1..] == es[1..] + fs;
      TypedConcat(es[1..], fs);
    }
  }

  lemma {:induction false} ScanTyped(kind: ConjKind, kept: seq<Expr>, rest: seq<Expr>)
    requires WellTypedAll(kept) && WellTypedAll(rest)
    ensures match ScanChildren(kind, kept, rest)
      case Front(e) => BoolTyped(e) && WellTyped(e)
      case Remaining(es) => WellTypedAll(es)
    decreases |rest|
  {
    if rest != [] && Neutral(kind, rest[0]) {
      ScanTyped(kind, kept, rest[1..]);
    } else if rest != [] && !Absorbing(kind, rest[0]) {
      TypedConcat(kept, [rest[0]]);
      assert [rest[0]][1..] == [];
      ScanTyped(kind, kept + [rest[0]], rest[1..]);
    }
  }

  /** Rewriting keeps types, whatever it does to values. */
  lemma {:induction false} TypesKept(env: Env, e: Expr)
    requires WellTyped(e)
    ensures WellTyped(Rewrite(env, e).expr) && (BoolTyped(e) ==> BoolTyped(Rewrite(env, e).expr))
    decreases Size(e), 1
  {
    if !FoldComparison(env, e).changed {
      if e.Conj? { ScanTyped(e.kind, [], e.children); }
      var s := SimplifyConj(e);
      if !s.changed {
        match s.expr
        case Cast(child, _) => TypesKept(env, child);
        case Compare(_, l, r) => TypesKept(env, l); TypesKept(env, r);
        case Conj(_, children) => TypesKeptAll(env, children);
        case _ =>
      }
    }
  }

  lemma {:induction false} TypesKeptAll(env: Env, es: seq<Expr>)
    requires WellTypedAll(es)
    ensures WellTypedAll(RewriteAll(env, es).0)
    decreases SizeAll(es), 2, |es|
  {
    if es != [] {
      TypesKept(env, es[0]);
      TypesKeptAll(env, es[1..]);
    }
  }

  // --- Exactly when one application of the conjunction rule is right ---

  /** Subquery predicates and boolean literals only: the children are independent of each other. */
  predicate Skeleton(es: seq<Expr>) {
    forall e :: e in es ==> IsBool(e) || e.Runtime?
  }

  /** No absorbing constant comes after a child that is not a constant. */
  predicate InFront(kind: ConjKind, es: seq<Expr>, seen: bool) {
    if es == [] then true
    else if Absorbing(kind, es[0]) then !seen
    else InFront(kind, es[1..], seen || !IsBool(es[0]))
  }

  predicate AllNeutral(kind: ConjKind, es: seq<Expr>) {
    es == [] || (Neutral(kind, es[0]) && AllNeutral(kind, es[1..]))
  }

  predicate Guard(kind: ConjKind, es: seq<Expr>) {
    InFront(kind, es, false) && !(kind.Or? && es != [] && AllNeutral(kind, es))
  }

  function Strip(kind: ConjKind, es: seq<Expr>): seq<Expr> {
    if es == [] then [] else (if Neutral(kind, es[0]) then [] else [es[0]]) + Strip(kind, es[1..])
  }

  /** Once a child is kept and the guard holds, the scan only erases neutral constants. */
  lemma {:induction false} ScanStrips(kind: ConjKind, kept: seq<Expr>, rest: seq<Expr>)
    requires InFront(kind, rest, true)
    ensures ScanChildren(kind, kept, rest) == Remaining(kept + Strip(kind, rest))
    decreases |rest|
  {
    if rest == [] {
      assert kept + [] == kept;
    } else if Neutral(kind, rest[0]) {
      ScanStrips(kind, kept, rest[1..]);
      assert Strip(kind, rest) == Strip(kind, rest[1..]);
    } else {
      ScanStrips(kind, kept + [rest[0]], rest[1..]);
      assert kept + [rest[0]] + Strip(kind, rest[1..]) == kept + ([rest[0]] + Strip(kind, rest[1..]));
    }
  }

  lemma {:induction false} StripMeaning(env: Env, kind: ConjKind, es: seq<Expr>, t: Tuple)
    ensures EvalConj(env, kind, Strip(kind, es), t) == EvalConj(env, kind, es, t)
  {
    if es != [] {
      StripMeaning(env, kind, es[1..], t);
      if Neutral(kind, es[0]) {
        assert Strip(kind, es) == Strip(kind, es[1..]);
      } else {
        assert Strip(kind, es)[1..] == Strip(kind, es[1..]);
      }
    }
  }

  lemma {:induction false} GuardedScan(env: Env, kind: ConjKind, es: seq<Expr>, t: Tuple)
    requires InFront(kind, es, false)
    ensures var r := ScanChildren(kind, [], es);
      && (r.Front? ==> r.e.Const? && EvalConj(env, kind, es, t) == Some(r.e.v))
      && (r.Remaining? ==> EvalConj(env, kind, es, t) == EvalConj(env, kind, r.es, t))
      && (r.Remaining? ==> (r.es == [] <==> AllNeutral(kind, es)))
      && (r.Remaining? && WellTypedAll(es) ==> WellTypedAll(r.es))
    decreases |es|
  {
    if es == [] {
    } else if Neutral(kind, es[0]) {
      GuardedScan(env, kind, es[1..], t);
    } else if !Absorbing(kind, es[0]) {
      ScanStrips(kind, [es[0]], es[1..]);
      StripMeaning(env, kind, es[1..], t);
      assert [] + [es[0]] == [es[0]];
      assert ([es[0]] + Strip(kind, es[1..]))[1..] == Strip(kind, es[1..]);
      StripTyped(kind, es[1..]);
    }
  }

  lemma {:induction false} StripTyped(kind: ConjKind, es: seq<Expr>)
    ensures WellTypedAll(es) ==> WellTypedAll(Strip(kind, es))
  {
    if es != [] {
      StripTyped(kind, es[1..]);
      if !Neutral(kind, es[0]) {
        assert Strip(kind, es)[1..] == Strip(kind, es[1..]);
      } else {
        assert Strip(kind, es) == Strip(kind, es[1..]);
      }
    }
  }

  /** Under the guard one application is right for any well-typed children, with any of them failing. */
  lemma GuardSound(env: Env, kind: ConjKind, es: seq<Expr>, t: Tuple)
    requires WellTypedAll(es) && Guard(kind, es)
    ensures Eval(env, SimplifyConj(Conj(kind, es)).expr, t) == Eval(env, Conj(kind, es), t)
  {
    GuardedScan(env, kind, es, t);
    var r := ScanChildren(kind, [], es);
    if r.Remaining? && |r.es| == 1 {
      assert r.es == [r.es[0]];
      SingletonConj(env, kind, r.es[0], t);
    }
  }

  /** With every subquery predicate true for AND, false for OR, a conjunction is decided by its constants. */
  lemma {:induction false} NeutralEnv(env: Env, kind: ConjKind, es: seq<Expr>, t: Tuple, seen: bool)
    requires Skeleton(es) && forall i: nat, u: Tuple :: env.runtime(i, u) == kind.And?
    ensures !InFront(kind, es, seen) ==> EvalConj(env, kind, es, t) == Some(Boolean(kind.Or?))
    ensures AllNeutral(kind, es) ==> EvalConj(env, kind, es, t) == Some(Boolean(kind.And?))
  {
    if es != [] {
      assert es[0] in es;
      NeutralEnv(env, kind, es[1..], t, seen || !IsBool(es[0]));
    }
  }

  /** When the guard fails on an absorbing constant, the rule answers with a child that is not it. */
  lemma {:induction false} WrongFront(kind: ConjKind, kept: seq<Expr>, rest: seq<Expr>)
    requires Skeleton(kept) && Skeleton(rest)
    requires kept == [] || kept[0].Runtime?
    requires !InFront(kind, rest, kept != [])
    ensures ScanChildren(kind, kept, rest).Front? && ScanChildren(kind, kept, rest).e.Runtime?
    decreases |rest|
  {
    assert rest[0] in rest;
    if Neutral(kind, rest[0]) {
      WrongFront(kind, kept, rest[1..]);
    } else if !Absorbing(kind, rest[0]) {
      WrongFront(kind, kept + [rest[0]], rest[1..]);
    }
  }

  lemma {:induction false} NeutralErased(kind: ConjKind, es: seq<Expr>)
    requires AllNeutral(kind, es)
    ensures ScanChildren(kind, [], es) == Remaining([])
  {
    if es != [] { NeutralErased(kind, es[1..]); }
  }

  lemma {:induction false} SkeletonTyped(es: seq<Expr>)
    requires Skeleton(es)
    ensures WellTypedAll(es)
  {
    if es != [] { assert es[0] in es; SkeletonTyped(es[1..]); }
  }

  /**
    On independent children the rule is right for every outcome of the subqueries exactly when no
    absorbing constant follows a non-constant child and an OR keeps at least one child.
   */
  lemma SimplifyExact(base: Env, kind: ConjKind, es: seq<Expr>, t: Tuple)
    requires Skeleton(es)
    ensures (forall runtime: (nat, Tuple) -> bool ::
               var env := base.(runtime := runtime);
               Eval(env, SimplifyConj(Conj(kind, es)).expr, t) == Eval(env, Conj(kind, es), t))
            <==> Guard(kind, es)
  {
    var e := Conj(kind, es);
    if Guard(kind, es) {
      SkeletonTyped(es);
      forall runtime: (nat, Tuple) -> bool
        ensures Eval(base.(runtime := runtime), SimplifyConj(e).expr, t) == Eval(base.(runtime := runtime), e, t)
      {
        GuardSound(base.(runtime := runtime), kind, es, t);
      }
    } else {
      var runtime := (i: nat, u: Tuple) => kind.And?;
      var env := base.(runtime := runtime);
      NeutralEnv(env, kind, es, t, false);
      if !InFront(kind, es, false) {
        WrongFront(kind, [], es);
      } else {
        NeutralErased(kind, es);
      }
      assert Eval(env, SimplifyConj(e).expr, t) != Eval(env, e, t);
    }
  }

  // --- Rewriting a whole expression ---

  /** Every application of the conjunction rule that `Rewrite` makes meets its guard. */
  predicate Guarded(env: Env, e: Expr)
    decreases Size(e), 1
  {
    && (e.Conj? ==> Guard(e.kind, e.children))
    && var folded := FoldComparison(env, e);
       var simple := SimplifyConj(folded.expr);
       folded.changed || simple.changed || GuardedBelow(env, simple.expr)
  }

  predicate GuardedBelow(env: Env, e: Expr)
    decreases Size(e), 0
  {
    match e
    case Cast(child, _) => Guarded(env, child)
    case Compare(_, l, r) => Guarded(env, l) && Guarded(env, r)
    case Conj(_, children) => GuardedAll(env, children)
    case _ => true
  }

  predicate GuardedAll(env: Env, es: seq<Expr>)
    decreases SizeAll(es), 2, |es|
  {
    es == [] || (Guarded(env, es[0]) && GuardedAll(env, es[1..]))
  }

  lemma SimplifySound(env: Env, e: Expr, t: Tuple)
    requires WellTyped(e) && (e.Conj? ==> Guard(e.kind, e.children))
    ensures Eval(env, SimplifyConj(e).expr, t) == Eval(env, e, t) && WellTyped(SimplifyConj(e).expr)
  {
    if e.Conj? {
      GuardSound(env, e.kind, e.children, t);
      ScanTyped(e.kind, [], e.children);
    }
  }

  /** Rewriting keeps the value, and any failure, on every tuple, if each application of the rule meets its guard. */
  lemma {:induction false} RewriteSound(env: Env, e: Expr, t: Tuple)
    requires WellTyped(e) && Guarded(env, e)
    ensures Eval(env, Rewrite(env, e).expr, t) == Eval(env, e, t)
    decreases Size(e), 1
  {
    if FoldComparison(env, e).changed {
      FoldingAgrees(env, e, t);
    } else {
      SimplifySound(env, e, t);
      if !SimplifyConj(e).changed { DescendSound(env, SimplifyConj(e).expr, t); }
    }
  }

  lemma {:induction false} DescendSound(env: Env, e: Expr, t: Tuple)
    requires WellTyped(e) && GuardedBelow(env, e)
    ensures Eval(env, Descend(env, e).expr, t) == Eval(env, e, t)
    decreases Size(e), 0
  {
    match e
    case Cast(child, _) => RewriteSound(env, child, t);
    case Compare(_, l, r) => RewriteSound(env, l, t); RewriteSound(env, r, t);
    case Conj(kind, children) => RewriteSoundConj(env, kind, children, t);
    case _ =>
  }

  lemma {:induction false} RewriteSoundConj(env: Env, kind: ConjKind, es: seq<Expr>, t: Tuple)
    requires WellTypedAll(es) && GuardedAll(env, es)
    ensures EvalConj(env, kind, RewriteAll(env, es).0, t) == EvalConj(env, kind, es, t)
    decreases SizeAll(es), 2, |es|
  {
    if es != [] {
      RewriteSound(env, es[0], t);
      RewriteSoundConj(env, kind, es[1..], t);
    }
  }

  // --- Changes that are not reported ---

  predicate NoBools(es: seq<Expr>) {
    es == [] || (!IsBool(es[0]) && NoBools(es[1..]))
  }

  /** No conjunction that the rewriter comes to has a boolean constant among its children. */
  predicate ConstantFree(e: Expr)
    decreases e, 1
  {
    match e
    case Cast(child, _) => ConstantFree(child)
    case Compare(_, l, r) => ConstantFree(l) && ConstantFree(r)
    case Conj(_, children) => NoBools(children) && ConstantFreeAll(children)
    case _ => true
  }

  predicate ConstantFreeAll(es: seq<Expr>)
    decreases es, 0
  {
    es == [] || (ConstantFree(es[0]) && ConstantFreeAll(es[1..]))
  }

  lemma {:induction false} ScanStable(kind: ConjKind, kept: seq<Expr>, rest: seq<Expr>)
    ensures var r := ScanChildren(kind, kept, rest);
      if NoBools(rest) then r == Remaining(kept + rest)
      else r.Remaining? ==> SizeAll(r.es) < SizeAll(kept) + SizeAll(rest)
    decreases |rest|
  {
    if rest == [] {
      assert kept + rest == kept;
    } else if Neutral(kind, rest[0]) {
      ScanStable(kind, kept, rest[1..]);
    } else if !Absorbing(kind, rest[0]) {
      ScanStable(kind, kept + [rest[0]], rest[1..]);
      assert kept + [rest[0]] + rest[1..] == kept + rest;
      SizeAllConcat(kept, [rest[0]]);
      assert [rest[0]][1..] == [];
    }
  }

  /**
    When no change is reported, none was made if no conjunction has a constant child, and the
    expression is smaller otherwise.
   */
  lemma {:induction false} UnreportedChange(env: Env, e: Expr)
    requires !Rewrite(env, e).changed
    ensures if ConstantFree(e) then Rewrite(env, e).expr == e else Size(Rewrite(env, e).expr) < Size(e)
    decreases Size(e), 1
  {
    match e
    case Cast(child, _) => UnreportedChange(env, child);
    case Compare(_, l, r) => UnreportedChange(env, l); UnreportedChange(env, r);
    case Conj(kind, children) =>
      ScanStable(kind, [], children);
      assert [] + children == children;
      if NoBools(children) { UnreportedChanges(env, children); }
    case _ =>
  }

  lemma {:induction false} UnreportedChanges(env: Env, es: seq<Expr>)
    requires !RewriteAll(env, es).1
    ensures if ConstantFreeAll(es) then RewriteAll(env, es).0 == es else SizeAll(RewriteAll(env, es).0) < SizeAll(es)
    decreases SizeAll(es), 2, |es|
  {
    if es != [] {
      UnreportedChange(env, es[0]);
      UnreportedChanges(env, es[1..]);
      var r := RewriteAll(env, es).0;
      assert r[0] == Rewrite(env, es[0]).expr && r[1..] == RewriteAll(env, es[1..]).0;
      assert es == [es[0]] + es[1..];
    }
  }

  /** Without constants and with several children, rewriting goes to the children. */
  lemma RewriteOperands(env: Env, kind: ConjKind, es: seq<Expr>)
    requires NoBools(es) && |es| != 1
    ensures Rewrite(env, Conj(kind, es)) == Rewritten(Conj(kind, RewriteAll(env, es).0), RewriteAll(env, es).1)
  {
    ScanStable(kind, [], es);
    assert [] + es == es;
    assert SimplifyConj(Conj(kind, es)) == Rewritten(Conj(kind, es), false);
  }

  lemma RewriteTwo(env: Env, kind: ConjKind, x: Expr, y: Expr)
    requires !IsBool(x) && !IsBool(y)
    ensures var a, b := Rewrite(env, x), Rewrite(env, y);
      Rewrite(env, Conj(kind, [x, y])) == Rewritten(Conj(kind, [a.expr, b.expr]), a.changed || b.changed)
  {
    assert [x, y][1..] == [y] && [y][1..] == [];
    RewriteOperands(env, kind, [x, y]);
    RewritePair(env, x, y);
  }

  lemma RewritePair(env: Env, x: Expr, y: Expr)
    ensures var a, b := Rewrite(env, x), Rewrite(env, y);
      RewriteAll(env, [x, y]) == ([a.expr, b.expr], a.changed || b.changed)
  {
    var a, b := Rewrite(env, x), Rewrite(env, y);
    assert [x] + [y] == [x, y] && [y] + [] == [y];
    RewriteAllCons(env, y, []);
    RewriteAllCons(env, x, [y]);
    assert [b.expr] + [] == [b.expr] && [a.expr] + [b.expr] == [a.expr, b.expr];
  }

  /** Two subquery predicates and a true in between: two visits change the expression, neither reports it. */
  lemma SilentChange(env: Env)
    ensures var t := Const(Boolean(true));
      var e := Conj(And, [Runtime(0), Conj(Or, [t, Runtime(1)])]);
      var once := Conj(And, [Runtime(0), t]);
      Rewrite(env, e) == Rewritten(once, false) && Rewrite(env, once) == Rewritten(Runtime(0), true)
  {
    var t := Const(Boolean(true));
    var o := Conj(Or, [t, Runtime(1)]);
    SilentFirst(env, o, t);
    SilentSecond(env, t);
  }

  lemma SilentFirst(env: Env, o: Expr, t: Expr)
    requires t == Const(Boolean(true)) && o == Conj(Or, [t, Runtime(1)])
    ensures Rewrite(env, Conj(And, [Runtime(0), o])) == Rewritten(Conj(And, [Runtime(0), t]), false)
  {
    SilentOr(env);
    RewriteTwo(env, And, Runtime(0), o);
  }

  lemma SilentSecond(env: Env, t: Expr)
    requires t == Const(Boolean(true))
    ensures Rewrite(env, Conj(And, [Runtime(0), t])) == Rewritten(Runtime(0), true)
  {
    assert [Runtime(0), t][1..] == [t] && [t][1..] == [] && [] + [Runtime(0)] == [Runtime(0)];
    assert ScanChildren(And, [Runtime(0)], [t]) == Remaining([Runtime(0)]);
  }

  lemma SilentOr(env: Env)
    ensures var t := Const(Boolean(true)); Rewrite(env, Conj(Or, [t, Runtime(1)])) == Rewritten(t, false)
  {
  }
}
