/**
  One `Value` for all children of a conjunction: src/observer/sql/expr/expression.cpp, and the setters
  of src/observer/sql/parser/value.cpp, none of which clears the null flag.
 */
module ValueSlot {
  import opened Options
  import opened Expressions
  import opened ExprRewriter

  /**
    Leaves an old null flag standing.  Only an assignment of a whole value clears it: that of a
    constant, or of a field of a row that the join has cached (`cached`).  A cast works on what its
    operand has left in the slot.
   */
  predicate KeepsFlag(cached: Expr -> bool, e: Expr) {
    match e
    case Const(_) => false
    case Field(_, _) => !cached(e)
    case Outer(_, _) => !cached(e)
    case Cast(child, _) => KeepsFlag(cached, child)
    case _ => true
  }

  /** The loop of `ConjunctionExpr::get_value` as it is: every child writes into the same value, null flag included. */
  function EvalConjSlot(env: Env, cached: Expr -> bool, kind: ConjKind, children: seq<Expr>, t: Tuple, flag: bool): Option<Value> {
    if children == [] then Some(Boolean(kind.And?))
    else
      var v :- Eval(env, children[0], t);
      var isNull := v.Null? || (KeepsFlag(cached, children[0]) && flag);
      if (!isNull && Truth(env, v)) == kind.Or? then Some(Boolean(kind.Or?))
      else EvalConjSlot(env, cached, kind, children[1..], t, isNull)
  }

  /** In an AND the shared slot is never noticed: a null child ends it. */
  lemma {:induction false} SlotUnnoticedByAnd(env: Env, cached: Expr -> bool, children: seq<Expr>, t: Tuple)
    ensures EvalConjSlot(env, cached, And, children, t, false) == EvalConj(env, And, children, t)
  {
    if children != [] { SlotUnnoticedByAnd(env, cached, children[1..], t); }
  }

  /** The null flag that child `k` finds, if the loop comes to it. */
  predicate FlagAt(env: Env, cached: Expr -> bool, es: seq<Expr>, t: Tuple, flag: bool, k: nat)
    requires k < |es|
  {
    if k == 0 then flag
    else
      var v := Eval(env, es[0], t);
      FlagAt(env, cached, es[1..], t, (v.Some? && v.value.Null?) || (KeepsFlag(cached, es[0]) && flag), k - 1)
  }

  /** Child `k` is true, and all before it have values. */
  predicate TrueAt(env: Env, es: seq<Expr>, t: Tuple, k: nat) {
    && k < |es|
    && (forall i :: 0 <= i < k ==> Eval(env, es[i], t).Some?)
    && Eval(env, es[k], t).Some? && Truth(env, Eval(env, es[k], t).value)
  }

  /** Child `k` is true and does not write under a standing null flag. */
  predicate FreeAt(env: Env, cached: Expr -> bool, es: seq<Expr>, t: Tuple, flag: bool, k: nat) {
    TrueAt(env, es, t, k) && !(KeepsFlag(cached, es[k]) && FlagAt(env, cached, es, t, flag, k))
  }

  lemma TrueAtStep(env: Env, cached: Expr -> bool, es: seq<Expr>, t: Tuple, flag: bool, k: nat)
    requires 0 < k
    ensures TrueAt(env, es, t, k) <==> es != [] && Eval(env, es[0], t).Some? && TrueAt(env, es[1..], t, k - 1)
    ensures es != [] && Eval(env, es[0], t).Some? ==>
      var v := Eval(env, es[0], t).value;
      FreeAt(env, cached, es, t, flag, k) <==> FreeAt(env, cached, es[1..], t, v.Null? || (KeepsFlag(cached, es[0]) && flag), k - 1)
  {
    if TrueAt(env, es, t, k) {
      forall i | 0 <= i < k - 1 ensures Eval(env, es[1..][i], t).Some? {
        assert es[1..][i] == es[i + 1];
      }
    }
    if es != [] && Eval(env, es[0], t).Some? && TrueAt(env, es[1..], t, k - 1) {
      forall i | 0 <= i < k ensures Eval(env, es[i], t).Some? {
        if i > 0 { assert es[1..][i - 1] == es[i]; }
      }
    }
  }

  lemma {:induction false} OrMeans(env: Env, es: seq<Expr>, t: Tuple)
    ensures EvalConj(env, Or, es, t) == Some(Boolean(true)) <==> exists k: nat :: TrueAt(env, es, t, k)
  {
    if es != [] {
      OrMeans(env, es[1..], t);
      if k: nat :| TrueAt(env, es, t, k) {
        if k > 0 { TrueAtStep(env, _ => true, es, t, false, k); }
      }
      if Eval(env, es[0], t).Some? && Truth(env, Eval(env, es[0], t).value) {
        assert TrueAt(env, es, t, 0);
      } else if k: nat :| TrueAt(env, es[1..], t, k) && Eval(env, es[0], t).Some? {
        TrueAtStep(env, _ => true, es, t, false, k + 1);
      }
    }
  }

  lemma {:induction false} SlotOrMeans(env: Env, cached: Expr -> bool, es: seq<Expr>, t: Tuple, flag: bool)
    ensures EvalConjSlot(env, cached, Or, es, t, flag) == Some(Boolean(true)) <==> exists k: nat :: FreeAt(env, cached, es, t, flag, k)
    ensures EvalConj(env, Or, es, t) != Some(Boolean(true)) ==> EvalConjSlot(env, cached, Or, es, t, flag) == EvalConj(env, Or, es, t)
  {
    if es != [] {
      var v := Eval(env, es[0], t);
      var next := (v.Some? && v.value.Null?) || (KeepsFlag(cached, es[0]) && flag);
      SlotOrMeans(env, cached, es[1..], t, next);
      if k: nat :| FreeAt(env, cached, es, t, flag, k) {
        if k > 0 { TrueAtStep(env, cached, es, t, flag, k); }
      }
      if v.Some? && Truth(env, v.value) && !next {
        assert FreeAt(env, cached, es, t, flag, 0);
      } else if k: nat :| FreeAt(env, cached, es[1..], t, next, k) && v.Some? {
        TrueAtStep(env, cached, es, t, flag, k + 1);
      }
    }
  }

  /** An OR is right if and only if, when a child is true, some true child finds no null flag in its way. */
  lemma SlotExact(env: Env, cached: Expr -> bool, es: seq<Expr>, t: Tuple)
    ensures EvalConjSlot(env, cached, Or, es, t, false) == EvalConj(env, Or, es, t) <==>
      ((exists k: nat :: TrueAt(env, es, t, k)) ==> exists k: nat :: FreeAt(env, cached, es, t, false, k))
  {
    OrMeans(env, es, t);
    SlotOrMeans(env, cached, es, t, false);
  }

  /** With boolean children there is no null flag. */
  lemma {:induction false} SlotUnnoticed(env: Env, cached: Expr -> bool, kind: ConjKind, children: seq<Expr>, t: Tuple)
    requires WellTypedAll(children)
    ensures EvalConjSlot(env, cached, kind, children, t, false) == EvalConj(env, kind, children, t)
  {
    if children != [] {
      BoolValued(env, children[0], t);
      SlotUnnoticed(env, cached, kind, children[1..], t);
    }
  }

  /** A null child before a true comparison: the disjunction comes out false. */
  lemma SlotNoticed(env: Env, cached: Expr -> bool, t: Tuple)
    ensures var es := [Const(Null), Compare(IsNull, Const(Null), Const(Null))];
      EvalConj(env, Or, es, t) == Some(Boolean(true)) && EvalConjSlot(env, cached, Or, es, t, false) == Some(Boolean(false))
  {
    var c := Compare(IsNull, Const(Null), Const(Null));
    assert Eval(env, c, t) == Some(Boolean(true));
    AfterNull(env, cached, Const(Null), c, t);
  }

  /** The second of two children, after a null. */
  lemma AfterNull(env: Env, cached: Expr -> bool, a: Expr, b: Expr, t: Tuple)
    requires Eval(env, a, t) == Some(Null) && Eval(env, b, t).Some? && Truth(env, Eval(env, b, t).value)
    ensures EvalConj(env, Or, [a, b], t) == Some(Boolean(true))
    ensures EvalConjSlot(env, cached, Or, [a, b], t, false) == Some(Boolean(!KeepsFlag(cached, b)))
  {
    assert [a, b][1..] == [b] && [b][1..] == [];
    assert EvalConj(env, Or, [b], t) == Some(Boolean(true));
    assert EvalConjSlot(env, cached, Or, [], t, true) == Some(Boolean(false));
    assert EvalConjSlot(env, cached, Or, [b], t, true) == Some(Boolean(!KeepsFlag(cached, b)));
  }

  /** Two fields, the first null and the second 5: false from a stored row, true from a cached one. */
  lemma FieldUnnoticed(env: Env, cached: Expr -> bool)
    requires Truth(env, Integer(5))
    ensures var es, t := [Field("t", "a"), Field("t", "b")], Row("t", [("a", Null), ("b", Integer(5))]);
      && EvalConj(env, Or, es, t) == Some(Boolean(true))
      && EvalConjSlot(env, cached, Or, es, t, false) == Some(Boolean(cached(es[1])))
  {
    var t := Row("t", [("a", Null), ("b", Integer(5))]);
    assert t.cells[1..] == [("b", Integer(5))];
    assert FindCell(t, "t", "a") == Some(Null) && FindCell(t, "t", "b") == Some(Integer(5));
    AfterNull(env, cached, Field("t", "a"), Field("t", "b"), t);
  }

  /** After a null, a true constant is seen, also through a cast; whatever is computed is not. */
  lemma ConstantNoticed(env: Env, cached: Expr -> bool, e: Expr, t: Tuple)
    requires Eval(env, e, t).Some? && Truth(env, Eval(env, e, t).value)
    ensures var slot := EvalConjSlot(env, cached, Or, [Const(Null), e], t, false);
      && (e.Const? || (e.Cast? && e.child.Const?) ==> slot == Some(Boolean(true)))
      && (e.Arith? || e.Call? || e.Compare? || e.Conj? || e.Runtime? ==> slot == Some(Boolean(false)))
      && (e.Outer? ==> slot == Some(Boolean(cached(e))))
  {
    AfterNull(env, cached, Const(Null), e, t);
  }
}
