/**
  Expressions on which the rewriter meets its guard in every pass: a condition on the expression
  alone, kept by rewriting.
 */
module ExprClass {
  import opened Options
  import opened Expressions
  import opened ExprRewriter

  /** Reads the row or the enclosing query in a way no rewriting can remove, so it never becomes a constant. */
  predicate Open(e: Expr)
    decreases e, 1
  {
    match e
    case Field(_, _) => true
    case Outer(_, _) => true
    case Runtime(_) => true
    case Const(_) => false
    case Cast(child, _) => Open(child)
    case Arith(_, _, operands) => SomeOpen(operands)
    case Compare(_, l, r) => Open(l) || Open(r)
    case Conj(_, children) => AllOpen(children)
    case Call(_, args) => SomeOpen(args)
  }

  predicate AllOpen(es: seq<Expr>)
    decreases es, 0
  {
    es == [] || (Open(es[0]) && AllOpen(es[1..]))
  }

  predicate SomeOpen(es: seq<Expr>)
    decreases es, 0
  {
    es != [] && (Open(es[0]) || SomeOpen(es[1..]))
  }

  /** No conjunction and no subquery predicate inside. */
  predicate Plain(e: Expr)
    decreases e, 1
  {
    match e
    case Cast(child, _) => Plain(child)
    case Arith(_, _, operands) => PlainAll(operands)
    case Compare(_, l, r) => Plain(l) && Plain(r)
    case Conj(_, _) => false
    case Runtime(_) => false
    case Call(_, args) => PlainAll(args)
    case _ => true
  }

  predicate PlainAll(es: seq<Expr>)
    decreases es, 0
  {
    es == [] || (Plain(es[0]) && PlainAll(es[1..]))
  }

  /** A comparison that cannot be evaluated without a row, such as one of a function that fails on its constants. */
  predicate Stuck(env: Env, e: Expr) {
    e.Compare? && Plain(e) && TryEval(env, e).None?
  }

  /** How soon a child becomes a constant: it is one, the next visit folds it, unknown, never. */
  function Rank(env: Env, e: Expr): nat {
    if IsBool(e) then 0
    else if e.Compare? && TryEval(env, e).Some? then 1
    else if Open(e) then 3
    else 2
  }

  /** Ranks do not fall, from `low` on, and at most one child is of rank 2. */
  predicate Sorted(env: Env, es: seq<Expr>, low: nat) {
    es == [] || (Rank(env, es[0]) >= low && Sorted(env, es[1..], if Rank(env, es[0]) == 2 then 3 else Rank(env, es[0])))
  }

  /** True, or false, on every tuple. */
  ghost predicate Always(env: Env, e: Expr, b: bool) {
    forall t :: Eval(env, e, t) == Some(Boolean(b))
  }

  /** Can only ever become the constant that changes nothing. */
  ghost predicate Benign(env: Env, kind: ConjKind, e: Expr) {
    Open(e) || Stuck(env, e) || Always(env, e, kind.And?)
  }

  ghost predicate BenignAll(env: Env, kind: ConjKind, es: seq<Expr>) {
    es == [] || (Benign(env, kind, es[0]) && BenignAll(env, kind, es[1..]))
  }

  /** Is never erased from an OR. */
  ghost predicate Lasting(env: Env, e: Expr) {
    Open(e) || Always(env, e, true)
  }

  ghost predicate SomeLasting(env: Env, es: seq<Expr>) {
    es != [] && (Lasting(env, es[0]) || SomeLasting(env, es[1..]))
  }

  /**
    No child can become an absorbing constant, or, neutral constants apart, the children that become
    constants come first.  An OR of several children keeps one.
   */
  ghost predicate Arranged(env: Env, kind: ConjKind, es: seq<Expr>) {
    && (Sorted(env, Strip(kind, es), 0) || BenignAll(env, kind, es))
    && (kind.Or? ==> es == [] || (|es| == 1 && !IsBool(es[0])) || SomeLasting(env, es))
  }

  ghost predicate Orderly(env: Env, e: Expr)
    decreases e, 1
  {
    match e
    case Cast(child, _) => Orderly(env, child)
    case Compare(_, l, r) => Orderly(env, l) && Orderly(env, r)
    case Conj(kind, children) => Arranged(env, kind, children) && OrderlyAll(env, children)
    case _ => true
  }

  ghost predicate OrderlyAll(env: Env, es: seq<Expr>)
    decreases es, 0
  {
    es == [] || (Orderly(env, es[0]) && OrderlyAll(env, es[1..]))
  }

  lemma {:induction false} OpenNotFoldable(env: Env, e: Expr)
    requires Open(e)
    ensures TryEval(env, e) == None
    decreases e, 1
  {
    match e
    case Cast(child, _) => OpenNotFoldable(env, child);
    case Arith(_, _, operands) => SomeOpenNotFoldable(env, operands);
    case Compare(_, l, r) =>
      if Open(l) { OpenNotFoldable(env, l); } else { OpenNotFoldable(env, r); }
    case Call(_, args) => SomeOpenNotFoldable(env, args);
    case _ =>
  }

  lemma {:induction false} SomeOpenNotFoldable(env: Env, es: seq<Expr>)
    requires SomeOpen(es)
    ensures TryEvalAll(env, es) == None
    decreases es, 0
  {
    if Open(es[0]) { OpenNotFoldable(env, es[0]); } else { SomeOpenNotFoldable(env, es[1..]); }
  }

  lemma {:induction false} SortedLower(env: Env, es: seq<Expr>, low: nat, low': nat)
    requires Sorted(env, es, low) && low' <= low
    ensures Sorted(env, es, low')
  {
  }

  /** Above rank 0 there is nothing to erase. */
  lemma {:induction false} ScanNoConstants(env: Env, kind: ConjKind, kept: seq<Expr>, rest: seq<Expr>, low: nat)
    requires Sorted(env, rest, low) && low >= 1
    ensures ScanChildren(kind, kept, rest) == Remaining(kept + rest)
    decreases |rest|
  {
    if rest == [] {
      assert kept + rest == kept;
    } else {
      ScanNoConstants(env, kind, kept + [rest[0]], rest[1..], if Rank(env, rest[0]) == 2 then 3 else Rank(env, rest[0]));
      assert kept + [rest[0]] + rest[1..] == kept + rest;
    }
  }

  // --- Arranged children meet the guard ---

  lemma {:induction false} SortedInFront(env: Env, kind: ConjKind, es: seq<Expr>, low: nat, seen: bool)
    requires Sorted(env, Strip(kind, es), low) && (seen ==> low >= 1)
    ensures InFront(kind, es, seen)
  {
    if es != [] {
      if Neutral(kind, es[0]) {
        assert Strip(kind, es) == Strip(kind, es[1..]);
        SortedInFront(env, kind, es[1..], low, seen);
      } else {
        assert Strip(kind, es)[1..] == Strip(kind, es[1..]) && Strip(kind, es)[0] == es[0];
        if !IsBool(es[0]) {
          SortedInFront(env, kind, es[1..], if Rank(env, es[0]) == 2 then 3 else Rank(env, es[0]), true);
        }
      }
    }
  }

  /** A constant that is neutral, or true, on every tuple. */
  lemma ConstAlways(env: Env, e: Expr, b: bool, t: Tuple)
    requires e.Const? && Always(env, e, b)
    ensures e.v == Boolean(b)
  {
    assert Eval(env, e, t) == Some(e.v);
  }

  lemma {:induction false} BenignInFront(env: Env, kind: ConjKind, es: seq<Expr>, seen: bool)
    requires BenignAll(env, kind, es)
    ensures InFront(kind, es, seen)
  {
    if es != [] {
      BenignInFront(env, kind, es[1..], seen || !IsBool(es[0]));
      if IsBool(es[0]) { ConstAlways(env, es[0], kind.And?, Row("", [])); }
    }
  }

  lemma {:induction false} LastingNotNeutral(env: Env, es: seq<Expr>)
    requires SomeLasting(env, es)
    ensures !AllNeutral(Or, es)
  {
    if Lasting(env, es[0]) {
      if IsBool(es[0]) { ConstAlways(env, es[0], true, Row("", [])); }
    } else {
      LastingNotNeutral(env, es[1..]);
    }
  }

  lemma ArrangedGuard(env: Env, kind: ConjKind, es: seq<Expr>)
    requires Arranged(env, kind, es)
    ensures Guard(kind, es)
  {
    if Sorted(env, Strip(kind, es), 0) {
      SortedInFront(env, kind, es, 0, false);
    } else {
      BenignInFront(env, kind, es, false);
    }
    if kind.Or? && SomeLasting(env, es) { LastingNotNeutral(env, es); }
  }

  // --- What the conjunction rule leaves is arranged again ---

  lemma {:induction false} StripTwice(kind: ConjKind, es: seq<Expr>)
    ensures Strip(kind, Strip(kind, es)) == Strip(kind, es)
  {
    if es != [] {
      StripTwice(kind, es[1..]);
      if Neutral(kind, es[0]) {
        assert Strip(kind, es) == Strip(kind, es[1..]);
      } else {
        assert Strip(kind, es)[1..] == Strip(kind, es[1..]) && Strip(kind, es)[0] == es[0];
      }
    }
  }

  lemma {:induction false} StripKeeps(env: Env, kind: ConjKind, es: seq<Expr>)
    ensures BenignAll(env, kind, es) ==> BenignAll(env, kind, Strip(kind, es))
    ensures OrderlyAll(env, es) ==> OrderlyAll(env, Strip(kind, es))
    ensures kind.Or? && SomeLasting(env, es) ==> SomeLasting(env, Strip(kind, es))
    ensures NoBools(es) ==> Strip(kind, es) == es
  {
    if es != [] {
      StripKeeps(env, kind, es[1..]);
      if Neutral(kind, es[0]) {
        assert Strip(kind, es) == Strip(kind, es[1..]);
        if kind.Or? && Lasting(env, es[0]) { ConstAlways(env, es[0], true, Row("", [])); }
      } else {
        assert Strip(kind, es)[1..] == Strip(kind, es[1..]) && Strip(kind, es)[0] == es[0];
        assert es == [es[0]] + es[1..];
      }
    }
  }

  /** In front of an absorbing constant there are neutral ones only; without one the neutral constants go. */
  lemma {:induction false} ScanIsStrip(kind: ConjKind, es: seq<Expr>)
    requires InFront(kind, es, false)
    ensures match ScanChildren(kind, [], es)
      case Front(e) => Absorbing(kind, e)
      case Remaining(fs) => fs == Strip(kind, es)
  {
    if es != [] {
      if Neutral(kind, es[0]) {
        ScanIsStrip(kind, es[1..]);
        assert Strip(kind, es) == Strip(kind, es[1..]);
      } else if !Absorbing(kind, es[0]) {
        ScanStrips(kind, [es[0]], es[1..]);
        assert [] + [es[0]] == [es[0]];
      }
    }
  }

  lemma StripArranged(env: Env, kind: ConjKind, es: seq<Expr>)
    requires Arranged(env, kind, es)
    ensures Arranged(env, kind, Strip(kind, es))
  {
    StripTwice(kind, es);
    StripKeeps(env, kind, es);
    if |es| == 1 && !IsBool(es[0]) { assert es[1..] == [] && NoBools(es); }
  }

  /** The conjunction rule on an orderly expression: orderly again. */
  lemma SimplifyOrderly(env: Env, e: Expr)
    requires Orderly(env, e)
    ensures Orderly(env, SimplifyConj(e).expr)
  {
    if e.Conj? {
      ArrangedGuard(env, e.kind, e.children);
      ScanIsStrip(e.kind, e.children);
      StripArranged(env, e.kind, e.children);
      StripKeeps(env, e.kind, e.children);
    }
  }

  /** An orderly expression meets the guard wherever the rewriter applies the conjunction rule. */
  lemma {:induction false} OrderlyGuarded(env: Env, e: Expr)
    requires Orderly(env, e)
    ensures Guarded(env, e)
    decreases Size(e), 1
  {
    if e.Conj? { ArrangedGuard(env, e.kind, e.children); }
    if !FoldComparison(env, e).changed {
      SimplifyOrderly(env, e);
      var s := SimplifyConj(e);
      if !s.changed {
        match s.expr
        case Cast(child, _) => OrderlyGuarded(env, child);
        case Compare(_, l, r) => OrderlyGuarded(env, l); OrderlyGuarded(env, r);
        case Conj(_, children) => OrderlyGuardedAll(env, children);
        case _ =>
      }
    }
  }

  lemma {:induction false} OrderlyGuardedAll(env: Env, es: seq<Expr>)
    requires OrderlyAll(env, es)
    ensures GuardedAll(env, es)
    decreases SizeAll(es), 2, |es|
  {
    if es != [] {
      OrderlyGuarded(env, es[0]);
      OrderlyGuardedAll(env, es[1..]);
    }
  }

  // --- Rewriting keeps openness and order ---

  lemma {:induction false} AllOpenSorted(env: Env, es: seq<Expr>)
    ensures AllOpen(es) <==> Sorted(env, es, 3)
  {
    if es != [] {
      AllOpenSorted(env, es[1..]);
      if Open(es[0]) { OpenNotFoldable(env, es[0]); }
    }
  }

  lemma {:induction false} OpenKept(env: Env, e: Expr)
    requires Open(e)
    ensures Open(Rewrite(env, e).expr)
    decreases Size(e), 1
  {
    OpenNotFoldable(env, e);
    assert FoldComparison(env, e) == Rewritten(e, false);
    match e
    case Cast(child, _) => OpenKept(env, child);
    case Compare(_, l, r) =>
      if Open(l) { OpenKept(env, l); } else { OpenKept(env, r); }
    case Conj(kind, children) =>
      AllOpenSorted(env, children);
      ScanNoConstants(env, kind, [], children, 3);
      assert [] + children == children;
      if |children| != 1 {
        AllOpenKept(env, children);
      }
    case Const(_) =>
    case _ => assert Descend(env, e) == Rewritten(e, false);
  }

  lemma {:induction false} AllOpenKept(env: Env, es: seq<Expr>)
    requires AllOpen(es)
    ensures AllOpen(RewriteAll(env, es).0)
    decreases SizeAll(es), 2, |es|
  {
    if es != [] {
      OpenKept(env, es[0]);
      AllOpenKept(env, es[1..]);
    }
  }

  /** Without conjunctions inside, rewriting folds nothing that folding the whole would not. */
  lemma {:induction false} PlainKept(env: Env, e: Expr)
    requires Plain(e)
    ensures Plain(Rewrite(env, e).expr) && TryEval(env, Rewrite(env, e).expr) == TryEval(env, e)
    ensures Stuck(env, e) ==> Stuck(env, Rewrite(env, e).expr)
    decreases Size(e), 1
  {
    match e
    case Cast(child, _) => PlainKept(env, child);
    case Compare(_, l, r) =>
      if TryEval(env, e).None? {
        PlainKept(env, l);
        PlainKept(env, r);
      }
    case Const(_) => assert Descend(env, e) == Rewritten(e, false);
    case Field(_, _) => assert Descend(env, e) == Rewritten(e, false);
    case Outer(_, _) => assert Descend(env, e) == Rewritten(e, false);
    case Arith(_, _, _) => assert Descend(env, e) == Rewritten(e, false);
    case Call(_, _) => assert Descend(env, e) == Rewritten(e, false);
  }

  lemma RankKept(env: Env, e: Expr)
    ensures Rank(env, e) <= 1 ==> IsBool(Rewrite(env, e).expr)
    ensures Rank(env, e) == 3 ==> Rank(env, Rewrite(env, e).expr) == 3
  {
    if Rank(env, e) == 3 {
      OpenKept(env, e);
      OpenNotFoldable(env, Rewrite(env, e).expr);
    }
  }

  lemma {:induction false} SortedKept(env: Env, es: seq<Expr>, low: nat)
    requires Sorted(env, es, low)
    ensures Sorted(env, RewriteAll(env, es).0, if low == 3 then 3 else 0)
    decreases |es|
  {
    if es != [] {
      var k := Rank(env, es[0]);
      RankKept(env, es[0]);
      SortedKept(env, es[1..], if k == 2 then 3 else k);
      var es', k' := RewriteAll(env, es).0, Rank(env, Rewrite(env, es[0]).expr);
      assert es'[1..] == RewriteAll(env, es[1..]).0;
      if k == 2 {
        SortedLower(env, es'[1..], 3, if k' == 2 then 3 else k');
      }
    }
  }

  lemma {:induction false} StripSorted(env: Env, kind: ConjKind, es: seq<Expr>, low: nat)
    requires Sorted(env, es, low)
    ensures Sorted(env, Strip(kind, es), low)
  {
    if es != [] {
      var k := if Rank(env, es[0]) == 2 then 3 else Rank(env, es[0]);
      StripSorted(env, kind, es[1..], k);
      if Neutral(kind, es[0]) {
        assert Strip(kind, es) == Strip(kind, es[1..]);
        SortedLower(env, Strip(kind, es), k, low);
      } else {
        assert Strip(kind, es)[1..] == Strip(kind, es[1..]) && Strip(kind, es)[0] == es[0];
      }
    }
  }

  lemma AlwaysKept(env: Env, e: Expr, b: bool)
    requires WellTyped(e) && Orderly(env, e) && Always(env, e, b)
    ensures Always(env, Rewrite(env, e).expr, b)
  {
    OrderlyGuarded(env, e);
    forall t ensures Eval(env, Rewrite(env, e).expr, t) == Some(Boolean(b)) {
      RewriteSound(env, e, t);
    }
  }

  lemma {:induction false} BenignKept(env: Env, kind: ConjKind, es: seq<Expr>)
    requires WellTypedAll(es) && OrderlyAll(env, es)
    ensures BenignAll(env, kind, es) ==> BenignAll(env, kind, RewriteAll(env, es).0)
    ensures SomeLasting(env, es) ==> SomeLasting(env, RewriteAll(env, es).0)
    decreases |es|
  {
    if es != [] {
      BenignKept(env, kind, es[1..]);
      var r := RewriteAll(env, es).0;
      assert r[0] == Rewrite(env, es[0]).expr && r[1..] == RewriteAll(env, es[1..]).0;
      if Open(es[0]) { OpenKept(env, es[0]); }
      if Stuck(env, es[0]) { PlainKept(env, es[0]); }
      if Always(env, es[0], kind.And?) { AlwaysKept(env, es[0], kind.And?); }
      if Always(env, es[0], true) { AlwaysKept(env, es[0], true); }
    }
  }

  /** The children of a conjunction that the rule has just left, rewritten. */
  lemma ArrangedKept(env: Env, kind: ConjKind, es: seq<Expr>)
    requires WellTypedAll(es) && OrderlyAll(env, es) && Arranged(env, kind, es) && Strip(kind, es) == es && |es| != 1
    ensures Arranged(env, kind, RewriteAll(env, es).0)
  {
    BenignKept(env, kind, es);
    if Sorted(env, es, 0) {
      SortedKept(env, es, 0);
      StripSorted(env, kind, RewriteAll(env, es).0, 0);
    }
  }

  /** Rewriting an orderly expression leaves an orderly one. */
  lemma {:induction false} OrderKept(env: Env, e: Expr)
    requires WellTyped(e) && Orderly(env, e)
    ensures Orderly(env, Rewrite(env, e).expr)
    decreases Size(e), 1
  {
    if !FoldComparison(env, e).changed {
      SimplifyOrderly(env, e);
      if e.Conj? { ScanTyped(e.kind, [], e.children); }
      var s := SimplifyConj(e);
      if !s.changed {
        match s.expr
        case Cast(child, _) => OrderKept(env, child);
        case Compare(_, l, r) => OrderKept(env, l); OrderKept(env, r);
        case Conj(kind, children) =>
          RuleLeaves(env, e);
          OrderKeptAll(env, children);
          ArrangedKept(env, kind, children);
        case _ =>
      }
    }
  }

  /** A conjunction left by the rule: stripped, typed, and not of one child. */
  lemma RuleLeaves(env: Env, e: Expr)
    requires WellTyped(e) && Orderly(env, e) && !SimplifyConj(e).changed && SimplifyConj(e).expr.Conj?
    ensures var s := SimplifyConj(e).expr;
      WellTypedAll(s.children) && Strip(s.kind, s.children) == s.children && |s.children| != 1
  {
    ArrangedGuard(env, e.kind, e.children);
    ScanIsStrip(e.kind, e.children);
    StripTwice(e.kind, e.children);
    ScanTyped(e.kind, [], e.children);
  }

  lemma {:induction false} OrderKeptAll(env: Env, es: seq<Expr>)
    requires WellTypedAll(es) && OrderlyAll(env, es)
    ensures OrderlyAll(env, RewriteAll(env, es).0)
    decreases SizeAll(es), 2, |es|
  {
    if es != [] {
      OrderKept(env, es[0]);
      OrderKeptAll(env, es[1..]);
    }
  }

  // --- Plain expressions ---

  lemma {:induction false} PlainGood(env: Env, e: Expr)
    requires Plain(e)
    ensures WellTyped(e) && Orderly(env, e) && NoRuntime(e) && (TableRefs(e) != {} ==> Open(e))
    decreases e, 1
  {
    match e
    case Cast(child, _) => PlainGood(env, child);
    case Arith(_, _, operands) => PlainAllGood(env, operands);
    case Compare(_, l, r) => PlainGood(env, l); PlainGood(env, r);
    case Call(_, args) => PlainAllGood(env, args);
    case _ =>
  }

  lemma {:induction false} PlainAllGood(env: Env, es: seq<Expr>)
    requires PlainAll(es)
    ensures NoRuntimeAll(es) && (TableRefsAll(es) != {} ==> SomeOpen(es))
    decreases es, 0
  {
    if es != [] { PlainGood(env, es[0]); PlainAllGood(env, es[1..]); }
  }
}
