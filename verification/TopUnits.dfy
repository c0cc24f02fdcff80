/**
  What the rewriter makes of the WHERE units that read no table: results of subqueries, comparisons
  of constants, and lists of constants.  They are the children of one AND, which a run of the
  rewriter visits until they are settled; three visits are enough.
 */
module TopUnits {
  import opened Options
  import opened Expressions
  import opened ExprRewriter
  import opened ExprClass

  const TRUE: Expr := Const(Boolean(true))
  const FALSE: Expr := Const(Boolean(false))

  /** A comparison that the next visit replaces by its value. */
  predicate Foldable(env: Env, e: Expr) {
    e.Compare? && Plain(e) && TryEval(env, e).Some?
  }

  predicate AllFoldable(env: Env, es: seq<Expr>) {
    es == [] || (Foldable(env, es[0]) && AllFoldable(env, es[1..]))
  }

  predicate Holds(env: Env, e: Expr) {
    TryEval(env, e) == Some(Boolean(true))
  }

  /** A list of constants: IN as an OR, NOT IN as an AND. */
  predicate ConstList(env: Env, e: Expr) {
    e.Conj? && e.children != [] && AllFoldable(env, e.children)
  }

  /** Never becomes a constant. */
  predicate Firm(env: Env, e: Expr) {
    e.Runtime? || Stuck(env, e)
  }

  predicate TopUnit(env: Env, e: Expr) {
    IsBool(e) || Firm(env, e) || Foldable(env, e) || ConstList(env, e)
  }

  predicate AllTop(env: Env, es: seq<Expr>) {
    es == [] || (TopUnit(env, es[0]) && AllTop(env, es[1..]))
  }

  /** Some comparison of the list decides it. */
  predicate Decided(env: Env, kind: ConjKind, es: seq<Expr>) {
    es != [] && (Holds(env, es[0]) == kind.Or? || Decided(env, kind, es[1..]))
  }

  // --- What happens to the units, said without the rewriter ---

  /** The constant that a unit is after so many visits: comparisons need one, lists two. */
  function Known(env: Env, e: Expr, visits: nat): Option<bool> {
    if IsBool(e) then Some(e.v.b)
    else if Foldable(env, e) then (if visits >= 1 then Some(Holds(env, e)) else None)
    else if ConstList(env, e) && visits >= 2 then
      if |e.children| == 1 then Some(Holds(env, e.children[0]))
      else if Decided(env, e.kind, e.children) then Some(e.kind.Or?)
      else None
    else None
  }

  /** A list that is left alone ends up true, whether or not the value is in it. */
  predicate Lost(env: Env, e: Expr, visits: nat) {
    ConstList(env, e) && e.kind.Or? && (|e.children| >= 2 || visits == 0)
  }

  /** Whether the unit keeps a row, if it is left after so many visits. */
  predicate Answer(env: Env, e: Expr, visits: nat, t: Tuple) {
    Lost(env, e, visits) || Keep(env, e, t)
  }

  predicate AnswerAll(env: Env, es: seq<Expr>, t: Tuple) {
    es == [] || (Answer(env, es[0], 2, t) && AnswerAll(env, es[1..], t))
  }

  /** Some unit has become false. */
  predicate Falsified(env: Env, es: seq<Expr>, visits: nat) {
    es != [] && (Known(env, es[0], visits) == Some(false) || Falsified(env, es[1..], visits))
  }

  /** The first unit that has not become true: it alone is left when another has become false. */
  function Decider(env: Env, es: seq<Expr>, visits: nat): (e: Expr)
    requires Falsified(env, es, visits)
    ensures e in es && Known(env, e, visits) != Some(true)
  {
    if Known(env, es[0], visits) == Some(true) then Decider(env, es[1..], visits) else es[0]
  }

  /** Whether the units together keep a row when the rewriter is through with them. */
  predicate Delivered(env: Env, es: seq<Expr>, t: Tuple) {
    if Falsified(env, es, 0) then Answer(env, Decider(env, es, 0), 0, t)
    else if Falsified(env, es, 1) then Answer(env, Decider(env, es, 1), 1, t)
    else if Falsified(env, es, 2) then Answer(env, Decider(env, es, 2), 2, t)
    else AnswerAll(env, es, t)
  }

  // --- One unit, visited ---

  function Visit(env: Env, e: Expr): Expr {
    Rewrite(env, e).expr
  }

  function Folded(env: Env, es: seq<Expr>): seq<Expr> {
    if es == [] then [] else [Const(Boolean(Holds(env, es[0])))] + Folded(env, es[1..])
  }

  /** What a list becomes once its comparisons are folded. */
  function Resolved(env: Env, kind: ConjKind, es: seq<Expr>): Expr {
    if Decided(env, kind, es) then Const(Boolean(kind.Or?)) else Conj(kind, [])
  }

  lemma BoolVisit(env: Env, e: Expr)
    requires IsBool(e)
    ensures Rewrite(env, e) == Rewritten(e, false) && Descend(env, e) == Rewritten(e, false)
  {
  }

  lemma FoldVisit(env: Env, e: Expr)
    requires Foldable(env, e)
    ensures Rewrite(env, e) == Rewritten(Const(Boolean(Holds(env, e))), true)
    ensures forall t :: Keep(env, e, t) == Holds(env, e)
  {
    forall t ensures Keep(env, e, t) == Holds(env, e) { FoldingAgrees(env, e, t); }
  }

  /** The operands of a comparison are rewritten without folding the whole. */
  lemma FoldDescend(env: Env, e: Expr)
    requires Foldable(env, e)
    ensures var d := Descend(env, e).expr; Foldable(env, d) && Holds(env, d) == Holds(env, e)
  {
    PlainKept(env, e.left);
    PlainKept(env, e.right);
  }

  lemma FirmVisit(env: Env, e: Expr)
    requires Firm(env, e)
    ensures Rewrite(env, e) == Descend(env, e) && Firm(env, Visit(env, e))
    ensures forall t :: Keep(env, Visit(env, e), t) == Keep(env, e, t)
  {
    if e.Compare? {
      PlainKept(env, e);
      PlainGood(env, e);
      OrderlyGuarded(env, e);
      forall t ensures Keep(env, Visit(env, e), t) == Keep(env, e, t) { RewriteSound(env, e, t); }
    }
  }

  lemma {:induction false} FoldAll(env: Env, es: seq<Expr>)
    requires AllFoldable(env, es)
    ensures RewriteAll(env, es) == (Folded(env, es), es != []) && NoBools(es) && |Folded(env, es)| == |es|
  {
    if es != [] {
      FoldVisit(env, es[0]);
      FoldAll(env, es[1..]);
      RewriteAllCons(env, es[0], es[1..]);
      assert es == [es[0]] + es[1..];
    }
  }

  lemma {:induction false} FoldedStay(env: Env, es: seq<Expr>)
    ensures RewriteAll(env, Folded(env, es)) == (Folded(env, es), false)
  {
    if es != [] {
      var c := Const(Boolean(Holds(env, es[0])));
      BoolVisit(env, c);
      FoldedStay(env, es[1..]);
      RewriteAllCons(env, c, Folded(env, es[1..]));
    }
  }

  lemma ListDescend(env: Env, e: Expr)
    requires ConstList(env, e)
    ensures Descend(env, e) == Rewritten(Conj(e.kind, Folded(env, e.children)), true)
  {
    FoldAll(env, e.children);
  }

  lemma ListVisit(env: Env, e: Expr)
    requires ConstList(env, e)
    ensures Rewrite(env, e) == if |e.children| == 1 then Rewritten(e.children[0], true) else Descend(env, e)
  {
    FoldAll(env, e.children);
    ScanStable(e.kind, [], e.children);
    assert [] + e.children == e.children;
  }

  lemma {:induction false} ScanFolded(env: Env, kind: ConjKind, es: seq<Expr>)
    ensures ScanChildren(kind, [], Folded(env, es))
            == if Decided(env, kind, es) then Front(Const(Boolean(kind.Or?))) else Remaining([])
  {
    if es != [] {
      ScanFolded(env, kind, es[1..]);
      assert Folded(env, es)[1..] == Folded(env, es[1..]);
    }
  }

  lemma EmptyVisit(env: Env, kind: ConjKind)
    ensures Rewrite(env, Conj(kind, [])) == Rewritten(Conj(kind, []), false) == Descend(env, Conj(kind, []))
  {
    var none: seq<Expr> := [];
    assert RewriteAll(env, none).0 == none && !RewriteAll(env, none).1;
    assert ScanChildren(kind, [], []) == Remaining([]);
  }

  /** A list with its comparisons folded is resolved by the next visit. */
  lemma FoldedVisit(env: Env, kind: ConjKind, es: seq<Expr>)
    ensures Rewrite(env, Conj(kind, Folded(env, es))) == Rewritten(Resolved(env, kind, es), false)
    ensures Descend(env, Conj(kind, Folded(env, es))) == Rewritten(Conj(kind, Folded(env, es)), false)
  {
    ScanFolded(env, kind, es);
    EmptyVisit(env, kind);
    FoldedStay(env, es);
  }

  lemma {:induction false} ListMeans(env: Env, kind: ConjKind, es: seq<Expr>, t: Tuple)
    requires AllFoldable(env, es)
    ensures EvalConj(env, kind, es, t) == Some(Boolean(Decided(env, kind, es) == kind.Or?))
  {
    if es != [] {
      FoldingAgrees(env, es[0], t);
      ListMeans(env, kind, es[1..], t);
    }
  }

  /** Settled for good. */
  predicate Final(env: Env, e: Expr) {
    IsBool(e) || Firm(env, e) || (e.Conj? && e.children == [])
  }

  lemma FinalVisit(env: Env, e: Expr)
    requires Final(env, e)
    ensures Rewrite(env, e) == Descend(env, e) && Final(env, Visit(env, e)) && IsBool(Visit(env, e)) == IsBool(e)
    ensures forall t :: Keep(env, Visit(env, e), t) == Keep(env, e, t)
  {
    if IsBool(e) { BoolVisit(env, e); } else if Firm(env, e) { FirmVisit(env, e); } else { EmptyVisit(env, e.kind); }
  }

  function After(env: Env, e: Expr, visits: nat): Expr {
    if visits == 0 then e else Visit(env, After(env, e, visits - 1))
  }

  lemma AfterOne(env: Env, e: Expr)
    ensures After(env, e, 0) == e && After(env, e, 1) == Visit(env, e) && After(env, e, 2) == Visit(env, Visit(env, e))
  {
    assert After(env, e, 1) == Visit(env, After(env, e, 0));
    assert After(env, e, 2) == Visit(env, After(env, e, 1));
  }

  /** A list as a child of the AND. */
  lemma ListAfter(env: Env, e: Expr)
    requires ConstList(env, e)
    ensures !IsBool(After(env, e, 1))
    ensures After(env, e, 2) == if |e.children| == 1 then Const(Boolean(Holds(env, e.children[0]))) else Resolved(env, e.kind, e.children)
  {
    AfterOne(env, e);
    ListVisit(env, e);
    if |e.children| == 1 {
      FoldVisit(env, e.children[0]);
    } else {
      ListDescend(env, e);
      FoldedVisit(env, e.kind, e.children);
    }
  }

  /** `x` is the constant `k`, or none. */
  predicate Shows(x: Expr, k: Option<bool>) {
    if k.Some? then x == Const(Boolean(k.value)) else !IsBool(x)
  }

  lemma {:induction false} FirmAfterKnown(env: Env, e: Expr, visits: nat)
    requires Firm(env, e)
    ensures Firm(env, After(env, e, visits)) && Known(env, e, visits) == None
  {
    if visits > 0 {
      FirmAfterKnown(env, e, visits - 1);
      FirmVisit(env, After(env, e, visits - 1));
    }
  }

  lemma FoldAfterKnown(env: Env, e: Expr, visits: nat)
    requires Foldable(env, e) && visits <= 2
    ensures Shows(After(env, e, visits), Known(env, e, visits))
  {
    AfterOne(env, e);
    FoldVisit(env, e);
    BoolVisit(env, Visit(env, e));
  }

  /** `Known` is what the visits find. */
  lemma AfterKnown(env: Env, e: Expr, visits: nat)
    requires TopUnit(env, e) && visits <= 2
    ensures Shows(After(env, e, visits), Known(env, e, visits))
  {
    if Firm(env, e) {
      FirmAfterKnown(env, e, visits);
    } else if Foldable(env, e) {
      FoldAfterKnown(env, e, visits);
    } else {
      AfterOne(env, e);
      if ConstList(env, e) { ListAfter(env, e); } else { BoolVisit(env, e); }
    }
  }

  lemma ListKeeps(env: Env, e: Expr, t: Tuple)
    requires ConstList(env, e)
    ensures Keep(env, e, t) == (Decided(env, e.kind, e.children) == e.kind.Or?)
  {
    ListMeans(env, e.kind, e.children, t);
  }

  lemma ResolvedKeeps(env: Env, e: Expr, t: Tuple)
    requires ConstList(env, e)
    ensures var r := Resolved(env, e.kind, e.children);
      Final(env, r) && Keep(env, r, t) == (e.kind.Or? || Keep(env, e, t))
  {
    ListKeeps(env, e, t);
  }

  /** Two visits settle a unit, and leave it its answer. */
  lemma AfterAnswers(env: Env, e: Expr)
    requires TopUnit(env, e)
    ensures Final(env, After(env, e, 2)) && forall t :: Keep(env, After(env, e, 2), t) == Answer(env, e, 2, t)
  {
    AfterOne(env, e);
    if IsBool(e) {
      BoolVisit(env, e);
    } else if Firm(env, e) {
      FirmVisit(env, e);
      FirmVisit(env, Visit(env, e));
    } else if Foldable(env, e) {
      FoldVisit(env, e);
      BoolVisit(env, Visit(env, e));
    } else {
      ListAfter(env, e);
      forall t ensures Keep(env, After(env, e, 2), t) == Answer(env, e, 2, t) {
        ListKeeps(env, e, t);
        ResolvedKeeps(env, e, t);
      }
    }
  }

  lemma KnownAnswer(env: Env, e: Expr, visits: nat, t: Tuple)
    requires TopUnit(env, e) && visits <= 2 && Known(env, e, visits).Some?
    ensures Answer(env, e, visits, t) == Known(env, e, visits).value
  {
    if Foldable(env, e) {
      FoldVisit(env, e);
    } else if ConstList(env, e) {
      ListKeeps(env, e, t);
    }
  }

  // --- The AND over all units, visited ---

  function AfterAll(env: Env, es: seq<Expr>, visits: nat): seq<Expr> {
    if visits == 0 then es else RewriteAll(env, AfterAll(env, es, visits - 1)).0
  }

  lemma {:induction false} AfterAllCons(env: Env, es: seq<Expr>, visits: nat)
    requires es != []
    ensures AfterAll(env, es, visits) == [After(env, es[0], visits)] + AfterAll(env, es[1..], visits)
  {
    if visits == 0 {
      assert es == [es[0]] + es[1..];
    } else {
      AfterAllCons(env, es, visits - 1);
      RewriteAllCons(env, After(env, es[0], visits - 1), AfterAll(env, es[1..], visits - 1));
    }
  }

  lemma {:induction false} AfterAllNone(env: Env, visits: nat)
    ensures AfterAll(env, [], visits) == []
  {
    if visits > 0 { AfterAllNone(env, visits - 1); }
  }

  /** What is left of the units after so many visits, the constant true apart. */
  function Left(env: Env, es: seq<Expr>, visits: nat): seq<Expr> {
    Strip(And, AfterAll(env, es, visits))
  }

  lemma LeftCons(env: Env, es: seq<Expr>, visits: nat)
    requires es != []
    ensures var x := After(env, es[0], visits);
      Left(env, es, visits) == (if x == TRUE then [] else [x]) + Left(env, es[1..], visits)
  {
    var x, rest := After(env, es[0], visits), AfterAll(env, es[1..], visits);
    AfterAllCons(env, es, visits);
    assert ([x] + rest)[0] == x && ([x] + rest)[1..] == rest;
  }

  lemma LeftNone(env: Env, visits: nat)
    ensures Left(env, [], visits) == []
  {
    AfterAllNone(env, visits);
  }

  /** A unit is false among them exactly when one is falsified, and the first of them is the decider. */
  lemma {:induction false} LeftDecides(env: Env, es: seq<Expr>, visits: nat)
    requires AllTop(env, es) && visits <= 2
    ensures FALSE in Left(env, es, visits) <==> Falsified(env, es, visits)
    ensures Falsified(env, es, visits) ==> Left(env, es, visits)[0] == After(env, Decider(env, es, visits), visits)
    decreases es
  {
    if es == [] {
      LeftNone(env, visits);
    } else {
      LeftCons(env, es, visits);
      AfterKnown(env, es[0], visits);
      LeftDecides(env, es[1..], visits);
    }
  }

  lemma {:induction false} StripFalse(fs: seq<Expr>)
    ensures FALSE in Strip(And, fs) <==> FALSE in fs
  {
    if fs != [] { StripFalse(fs[1..]); }
  }

  /** A false child makes the rule answer with the first child that it has kept. */
  lemma {:induction false} FrontIs(kept: seq<Expr>, rest: seq<Expr>)
    requires FALSE in rest
    ensures kept != [] ==> ScanChildren(And, kept, rest) == Front(kept[0])
    ensures kept == [] ==> Strip(And, rest) != [] && ScanChildren(And, kept, rest) == Front(Strip(And, rest)[0])
    decreases |rest|
  {
    if Neutral(And, rest[0]) {
      FrontIs(kept, rest[1..]);
      assert Strip(And, rest) == Strip(And, rest[1..]);
    } else if !Absorbing(And, rest[0]) {
      FrontIs(kept + [rest[0]], rest[1..]);
    }
  }

  lemma {:induction false} NoFalseInFront(fs: seq<Expr>, seen: bool)
    requires FALSE !in fs
    ensures InFront(And, fs, seen)
  {
    if fs != [] { NoFalseInFront(fs[1..], seen || !IsBool(fs[0])); }
  }

  lemma ScanAnd(fs: seq<Expr>)
    requires FALSE !in fs
    ensures ScanChildren(And, [], fs) == Remaining(Strip(And, fs))
  {
    NoFalseInFront(fs, true);
    ScanStrips(And, [], fs);
    assert [] + Strip(And, fs) == Strip(And, fs);
  }

  /** One visit of an AND. */
  lemma VisitAnd(env: Env, fs: seq<Expr>)
    ensures var g := Strip(And, fs);
      if FALSE in g then Rewrite(env, Conj(And, fs)) == Descend(env, g[0])
      else if |g| == 1 then Rewrite(env, Conj(And, fs)) == Rewritten(g[0], true)
      else Rewrite(env, Conj(And, fs)) == Rewritten(Conj(And, RewriteAll(env, g).0), RewriteAll(env, g).1)
  {
    StripFalse(fs);
    if FALSE in fs { FrontIs([], fs); } else { ScanAnd(fs); }
  }

  /** Erasing the constant true before a visit or after it: the same is left. */
  lemma {:induction false} StripVisited(env: Env, fs: seq<Expr>)
    ensures Strip(And, RewriteAll(env, Strip(And, fs)).0) == Strip(And, RewriteAll(env, fs).0)
  {
    if fs != [] {
      var x, r := fs[0], RewriteAll(env, fs[1..]).0;
      StripVisited(env, fs[1..]);
      assert RewriteAll(env, fs).0 == [Visit(env, x)] + r && ([Visit(env, x)] + r)[1..] == r;
      if Neutral(And, x) {
        BoolVisit(env, x);
        assert Strip(And, fs) == Strip(And, fs[1..]) && Strip(And, RewriteAll(env, fs).0) == Strip(And, r);
      } else {
        var s := RewriteAll(env, Strip(And, fs[1..])).0;
        RewriteAllCons(env, x, Strip(And, fs[1..]));
        assert ([Visit(env, x)] + s)[1..] == s;
      }
    }
  }

  lemma LeftNext(env: Env, es: seq<Expr>, visits: nat)
    ensures Strip(And, RewriteAll(env, Left(env, es, visits)).0) == Left(env, es, visits + 1)
  {
    StripVisited(env, AfterAll(env, es, visits));
  }

  // --- The results ---

  /** A boolean expression on which the rewriter meets its guard from now on. */
  ghost predicate Ready(env: Env, e: Expr) {
    BoolTyped(e) && WellTyped(e) && Orderly(env, e)
  }

  predicate AllLasting(env: Env, es: seq<Expr>) {
    es == [] || (Final(env, es[0]) && !IsBool(es[0]) && AllLasting(env, es[1..]))
  }

  /** Has no constant in a conjunction, and never will: what a visit changes, it reports. */
  predicate Calm(env: Env, e: Expr) {
    || IsBool(e) || e.Runtime? || (e.Compare? && Plain(e))
    || (e.Conj? && (e.children == [] || (e.kind.And? && AllLasting(env, e.children))))
  }

  lemma FinalReady(env: Env, e: Expr)
    requires Final(env, e)
    ensures Ready(env, e) && Calm(env, e)
  {
    if e.Compare? { PlainGood(env, e); }
    if e.Conj? { assert Arranged(env, e.kind, []); }
  }

  lemma FoldableReady(env: Env, e: Expr)
    requires Foldable(env, e)
    ensures Ready(env, e) && Calm(env, e)
  {
    PlainGood(env, e);
  }

  predicate AllFinal(env: Env, es: seq<Expr>) {
    es == [] || (Final(env, es[0]) && AllFinal(env, es[1..]))
  }

  lemma {:induction false} AllFinalReady(env: Env, es: seq<Expr>)
    requires AllFinal(env, es) && FALSE !in es
    ensures WellTypedAll(es) && OrderlyAll(env, es) && BenignAll(env, And, es)
  {
    if es != [] {
      FinalReady(env, es[0]);
      AllFinalReady(env, es[1..]);
      if es[0].Const? { assert Always(env, es[0], true); }
    }
  }

  lemma AndReady(env: Env, es: seq<Expr>)
    requires AllFinal(env, es) && FALSE !in es
    ensures Ready(env, Conj(And, es))
  {
    AllFinalReady(env, es);
  }

  lemma {:induction false} AllFinalVisit(env: Env, es: seq<Expr>)
    requires AllFinal(env, es)
    ensures AllFinal(env, RewriteAll(env, es).0) && (FALSE !in es ==> FALSE !in RewriteAll(env, es).0)
    ensures AllLasting(env, es) ==> AllLasting(env, RewriteAll(env, es).0)
    ensures forall t :: KeepAll(env, RewriteAll(env, es).0, t) == KeepAll(env, es, t)
  {
    if es != [] {
      FinalVisit(env, es[0]);
      if IsBool(es[0]) { BoolVisit(env, es[0]); }
      AllFinalVisit(env, es[1..]);
      var r := RewriteAll(env, es).0;
      assert r[0] == Visit(env, es[0]) && r[1..] == RewriteAll(env, es[1..]).0;
    }
  }

  /** After two visits all that is left is final, and gives the answers of the units. */
  lemma {:induction false} LeftAnswers(env: Env, es: seq<Expr>)
    requires AllTop(env, es)
    ensures AllFinal(env, Left(env, es, 2))
    ensures forall t :: KeepAll(env, Left(env, es, 2), t) == AnswerAll(env, es, t)
    decreases es
  {
    if es == [] {
      LeftNone(env, 2);
    } else {
      LeftCons(env, es, 2);
      AfterAnswers(env, es[0]);
      LeftAnswers(env, es[1..]);
      var x, rest := After(env, es[0], 2), Left(env, es[1..], 2);
      assert ([x] + rest)[0] == x && ([x] + rest)[1..] == rest && [] + rest == rest;
      forall t ensures KeepAll(env, Left(env, es, 2), t) == AnswerAll(env, es, t) {
        if x == TRUE { assert Keep(env, x, t); }
      }
    }
  }

  /** The expression keeps exactly the rows that `Delivered` says, and always will. */
  ghost predicate Settles(env: Env, e: Expr, es: seq<Expr>) {
    Ready(env, e) && Calm(env, e) && forall t :: Keep(env, e, t) == Delivered(env, es, t)
  }

  /** A unit that a visit changes. */
  predicate Busy(env: Env, es: seq<Expr>) {
    es != [] && (Foldable(env, es[0]) || ConstList(env, es[0]) || Busy(env, es[1..]))
  }

  lemma {:induction false} BusyChanges(env: Env, es: seq<Expr>)
    requires Busy(env, es)
    ensures Busy(env, Strip(And, es)) && RewriteAll(env, es).1
  {
    var rest := Strip(And, es[1..]);
    assert ([es[0]] + rest)[1..] == rest;
    if Foldable(env, es[0]) {
      FoldVisit(env, es[0]);
    } else if ConstList(env, es[0]) {
      ListVisit(env, es[0]);
      ListDescend(env, es[0]);
    } else {
      BusyChanges(env, es[1..]);
      if Neutral(And, es[0]) { assert Strip(And, es) == rest; }
    }
  }

  lemma {:induction false} TopMember(env: Env, es: seq<Expr>, e: Expr)
    requires AllTop(env, es) && e in es
    ensures TopUnit(env, e)
  {
    if e != es[0] { TopMember(env, es[1..], e); }
  }

  // A constant false among the units.

  lemma FalseAtOnce(env: Env, es: seq<Expr>)
    requires AllTop(env, es) && Falsified(env, es, 0)
    ensures Rewrite(env, Conj(And, es)) == Descend(env, Decider(env, es, 0)) && TopUnit(env, Decider(env, es, 0))
  {
    LeftDecides(env, es, 0);
    VisitAnd(env, es);
    TopMember(env, es, Decider(env, es, 0));
  }

  lemma FirstDecides(env: Env, es: seq<Expr>)
    requires AllTop(env, es) && Falsified(env, es, 0) && !ConstList(env, Decider(env, es, 0))
    ensures Settles(env, Visit(env, Conj(And, es)), es)
  {
    var d := Decider(env, es, 0);
    FalseAtOnce(env, es);
    if Foldable(env, d) {
      FoldDescend(env, d);
      FoldVisit(env, d);
      FoldVisit(env, Descend(env, d).expr);
      FoldableReady(env, Descend(env, d).expr);
    } else {
      FinalVisit(env, d);
      FinalReady(env, Visit(env, d));
    }
  }

  lemma ListDecides(env: Env, es: seq<Expr>)
    requires AllTop(env, es) && Falsified(env, es, 0) && ConstList(env, Decider(env, es, 0))
    ensures var e := Conj(And, es); !Visit(env, e).Const? && Rewrite(env, e).changed
    ensures Settles(env, Visit(env, Visit(env, Visit(env, Conj(And, es)))), es)
  {
    var d := Decider(env, es, 0);
    var r := Resolved(env, d.kind, d.children);
    FalseAtOnce(env, es);
    ListDescend(env, d);
    FoldedVisit(env, d.kind, d.children);
    assert Visit(env, Visit(env, Conj(And, es))) == r;
    FinalVisit(env, r);
    FinalReady(env, Visit(env, r));
    forall t ensures Keep(env, Visit(env, r), t) == Delivered(env, es, t) { ResolvedKeeps(env, d, t); }
  }

  // No constant false, and nothing that a visit changes.

  lemma {:induction false} Quiet(env: Env, es: seq<Expr>, visits: nat)
    requires AllTop(env, es) && !Busy(env, es) && !Falsified(env, es, 0)
    ensures !Falsified(env, es, visits) && AllFinal(env, Left(env, es, 0))
    ensures forall t :: KeepAll(env, Left(env, es, 0), t) == AnswerAll(env, es, t)
    decreases es
  {
    if es == [] {
      LeftNone(env, 0);
    } else {
      Quiet(env, es[1..], visits);
      LeftCons(env, es, 0);
      var rest := Left(env, es[1..], 0);
      assert ([es[0]] + rest)[0] == es[0] && ([es[0]] + rest)[1..] == rest && [] + rest == rest;
    }
  }

  lemma {:induction false} StripLasting(env: Env, fs: seq<Expr>)
    requires AllFinal(env, Strip(And, fs)) && FALSE !in Strip(And, fs)
    ensures AllLasting(env, Strip(And, fs))
  {
    if fs != [] {
      var rest := Strip(And, fs[1..]);
      if Neutral(And, fs[0]) {
        assert Strip(And, fs) == rest;
      } else {
        assert Strip(And, fs)[0] == fs[0] && Strip(And, fs)[1..] == rest;
      }
      StripLasting(env, fs[1..]);
    }
  }

  /** What is left is final: the visited AND keeps its rows. */
  lemma FinalAnd(env: Env, fs: seq<Expr>)
    requires AllFinal(env, Strip(And, fs)) && FALSE !in Strip(And, fs)
    ensures Ready(env, Visit(env, Conj(And, fs))) && Calm(env, Visit(env, Conj(And, fs)))
    ensures forall t :: Keep(env, Visit(env, Conj(And, fs)), t) == KeepAll(env, Strip(And, fs), t)
  {
    var g := Strip(And, fs);
    VisitAnd(env, fs);
    StripLasting(env, fs);
    if |g| == 1 {
      FinalReady(env, g[0]);
      assert g[1..] == [];
    } else {
      var r := RewriteAll(env, g).0;
      AllFinalVisit(env, g);
      AndReady(env, r);
      forall t ensures Keep(env, Conj(And, r), t) == KeepAll(env, g, t) { KeepAnd(env, r, t); }
    }
  }

  lemma QuietSettles(env: Env, es: seq<Expr>)
    requires AllTop(env, es) && !Busy(env, es) && !Falsified(env, es, 0)
    ensures Settles(env, Visit(env, Conj(And, es)), es)
  {
    Quiet(env, es, 1);
    Quiet(env, es, 2);
    LeftDecides(env, es, 0);
    FinalAnd(env, es);
  }

  // No constant false yet, but more constants to come.

  lemma FalseDecider(env: Env, es: seq<Expr>, visits: nat, t: Tuple)
    requires AllTop(env, es) && visits <= 2 && Falsified(env, es, visits)
    requires Left(env, es, visits) != [] && Left(env, es, visits)[0] == FALSE
    ensures !Answer(env, Decider(env, es, visits), visits, t)
  {
    var d := Decider(env, es, visits);
    LeftDecides(env, es, visits);
    TopMember(env, es, d);
    AfterKnown(env, d, visits);
    KnownAnswer(env, d, visits, t);
  }

  lemma OneLeft(env: Env, x: Expr)
    ensures Strip(And, RewriteAll(env, [x]).0) == if Visit(env, x) == TRUE then [] else [Visit(env, x)]
  {
    RewriteAllCons(env, x, []);
    assert [x] + [] == [x] && [Visit(env, x)] + [] == [Visit(env, x)] && [Visit(env, x)][1..] == [];
  }

  /** All but one have become true, and that one is settled by now. */
  lemma LastOne(env: Env, es: seq<Expr>, x: Expr)
    requires AllTop(env, es) && !Falsified(env, es, 0) && !Falsified(env, es, 1)
    requires Left(env, es, 2) == if x == TRUE then [] else [x]
    ensures Settles(env, x, es)
  {
    LeftAnswers(env, es);
    LeftDecides(env, es, 2);
    assert Final(env, x) by { assert x == TRUE || Left(env, es, 2)[0] == x; }
    FinalReady(env, x);
    assert [x][1..] == [];
    forall t ensures Keep(env, x, t) == Delivered(env, es, t) {
      if Falsified(env, es, 2) {
        assert x == FALSE;
        FalseDecider(env, es, 2, t);
      } else {
        assert KeepAll(env, Left(env, es, 2), t) == Keep(env, x, t);
      }
    }
  }

  lemma OneFromStart(env: Env, es: seq<Expr>)
    requires AllTop(env, es) && !Falsified(env, es, 0) && |Left(env, es, 0)| == 1
    ensures var e := Conj(And, es); Rewrite(env, e) == Rewritten(Left(env, es, 0)[0], true)
    ensures Settles(env, After(env, Left(env, es, 0)[0], 2), es)
  {
    var x := Left(env, es, 0)[0];
    assert Left(env, es, 0) == [x];
    LeftDecides(env, es, 0);
    VisitAnd(env, es);
    AfterOne(env, x);
    LeftNext(env, es, 0);
    OneLeft(env, x);
    LeftNext(env, es, 1);
    LeftDecides(env, es, 1);
    if Visit(env, x) == TRUE {
      BoolVisit(env, TRUE);
      LastOne(env, es, TRUE);
    } else if Visit(env, x) == FALSE {
      BoolVisit(env, FALSE);
      FinalReady(env, FALSE);
      forall t ensures !Delivered(env, es, t) { FalseDecider(env, es, 1, t); }
    } else {
      OneLeft(env, Visit(env, x));
      LastOne(env, es, Visit(env, Visit(env, x)));
    }
  }

  /** The decider of the second visit, one visit later. */
  lemma DeciderSettles(env: Env, d: Expr)
    requires TopUnit(env, d)
    ensures var e := Visit(env, Descend(env, Visit(env, d)).expr);
      Final(env, e) && forall t :: Keep(env, e, t) == Answer(env, d, 1, t)
  {
    var x := Visit(env, d);
    if ConstList(env, d) {
      ListVisit(env, d);
      if |d.children| == 1 {
        FoldDescend(env, x);
        FoldVisit(env, x);
        FoldVisit(env, Descend(env, x).expr);
        forall t ensures Keep(env, x, t) == Keep(env, d, t) { ListKeeps(env, d, t); }
      } else {
        ListDescend(env, d);
        FoldedVisit(env, d.kind, d.children);
        forall t ensures Keep(env, Resolved(env, d.kind, d.children), t) == Answer(env, d, 1, t) { ResolvedKeeps(env, d, t); }
      }
    } else {
      if Foldable(env, d) { FoldVisit(env, d); } else { FinalVisit(env, d); }
      FinalVisit(env, x);
      FinalVisit(env, Visit(env, x));
    }
  }

  /** From the second visit on. */
  lemma SecondVisit(env: Env, es: seq<Expr>, fs: seq<Expr>)
    requires AllTop(env, es) && !Falsified(env, es, 0) && Strip(And, fs) == Left(env, es, 1)
    ensures Settles(env, Visit(env, Visit(env, Conj(And, fs))), es)
  {
    LeftDecides(env, es, 1);
    VisitAnd(env, fs);
    LeftNext(env, es, 1);
    var g := Left(env, es, 1);
    if Falsified(env, es, 1) {
      var d := Decider(env, es, 1);
      AfterOne(env, d);
      TopMember(env, es, d);
      DeciderSettles(env, d);
      FinalReady(env, Visit(env, Descend(env, Visit(env, d)).expr));
    } else if |g| == 1 {
      assert g == [g[0]];
      OneLeft(env, g[0]);
      LastOne(env, es, Visit(env, g[0]));
    } else {
      ThirdVisit(env, es, RewriteAll(env, g).0);
    }
  }

  lemma ThirdVisit(env: Env, es: seq<Expr>, fs: seq<Expr>)
    requires AllTop(env, es) && !Falsified(env, es, 0) && !Falsified(env, es, 1) && Strip(And, fs) == Left(env, es, 2)
    ensures Settles(env, Visit(env, Conj(And, fs)), es)
  {
    LeftDecides(env, es, 2);
    LeftAnswers(env, es);
    if Falsified(env, es, 2) {
      var d := Decider(env, es, 2);
      var x := After(env, d, 2);
      VisitAnd(env, fs);
      TopMember(env, es, d);
      AfterAnswers(env, d);
      FinalVisit(env, x);
      FinalReady(env, Visit(env, x));
    } else {
      FinalAnd(env, fs);
    }
  }

  lemma BusySettles(env: Env, es: seq<Expr>)
    requires AllTop(env, es) && Busy(env, es) && !Falsified(env, es, 0)
    ensures var e := Conj(And, es); !Visit(env, e).Const? && Rewrite(env, e).changed
    ensures Settles(env, Visit(env, Visit(env, Visit(env, Conj(And, es)))), es)
  {
    var g := Left(env, es, 0);
    BusyChanges(env, es);
    LeftDecides(env, es, 0);
    if |g| == 1 {
      OneFromStart(env, es);
      AfterOne(env, g[0]);
      assert g[1..] == [];
    } else {
      VisitAnd(env, es);
      BusyChanges(env, g);
      LeftNext(env, es, 0);
      SecondVisit(env, es, RewriteAll(env, g).0);
    }
  }

  /**
    The AND over the units settles at the first visit, or the first visit reports a change and it
    settles at the third.
   */
  lemma UnitsSettle(env: Env, es: seq<Expr>)
    requires AllTop(env, es)
    ensures var e := Conj(And, es);
      || Settles(env, Visit(env, e), es)
      || (!Visit(env, e).Const? && Rewrite(env, e).changed && Settles(env, Visit(env, Visit(env, Visit(env, e))), es))
  {
    if Falsified(env, es, 0) {
      if ConstList(env, Decider(env, es, 0)) { ListDecides(env, es); } else { FirstDecides(env, es); }
    } else if Busy(env, es) {
      BusySettles(env, es);
    } else {
      QuietSettles(env, es);
    }
  }

  // --- Calm expressions ---

  lemma {:induction false} PlainFree(e: Expr)
    requires Plain(e)
    ensures ConstantFree(e)
  {
    match e
    case Cast(child, _) => PlainFree(child);
    case Compare(_, l, r) => PlainFree(l); PlainFree(r);
    case _ =>
  }

  lemma {:induction false} LastingFree(env: Env, es: seq<Expr>)
    requires AllLasting(env, es)
    ensures ConstantFreeAll(es) && NoBools(es)
  {
    if es != [] {
      if es[0].Compare? { PlainFree(es[0]); }
      LastingFree(env, es[1..]);
    }
  }

  lemma CalmFree(env: Env, e: Expr)
    requires Calm(env, e)
    ensures ConstantFree(e)
  {
    if e.Compare? { PlainFree(e); }
    if e.Conj? && e.children != [] { LastingFree(env, e.children); }
  }

  lemma {:induction false} LastingFinal(env: Env, es: seq<Expr>)
    requires AllLasting(env, es)
    ensures AllFinal(env, es) && Strip(And, es) == es && FALSE !in es
  {
    if es != [] {
      LastingFinal(env, es[1..]);
      assert es == [es[0]] + es[1..];
    }
  }

  /** A visit leaves a calm expression calm, and the same if it reports no change. */
  lemma CalmKept(env: Env, e: Expr)
    requires Calm(env, e)
    ensures Calm(env, Visit(env, e)) && (!Rewrite(env, e).changed ==> Visit(env, e) == e)
  {
    CalmFree(env, e);
    if !Rewrite(env, e).changed { UnreportedChange(env, e); }
    if e.Compare? {
      PlainKept(env, e);
      if TryEval(env, e).Some? { FoldVisit(env, e); }
    } else if e.Conj? && e.children == [] {
      EmptyVisit(env, e.kind);
    } else if e.Conj? {
      LastingFinal(env, e.children);
      FinalAnd(env, e.children);
    }
  }
}
