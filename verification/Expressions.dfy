/**
  Values, tuples and expressions of the query engine: src/observer/sql/expr/expression.cpp and
  src/observer/sql/expr/tuple.h.
 */
module Expressions {
  import opened Options
  import Like

  datatype Value = Null | Boolean(b: bool) | Integer(i: int) | Float(r: real) | Chars(s: string) | Date(d: int)
  datatype AttrType = Nulls | Booleans | Integers | Floats | Strings | Dates
  datatype ArithOp = Add | Sub | Mul | Div | Negative
  datatype CompOp = EqualTo | LessEqual | NotEqual | LessThan | GreatEqual | GreatThan
                  | LikeOp | NotLike | IsNull | IsNotNull | Unsupported
  datatype ConjKind = And | Or

  /** `RowTuple` and `JoinedTuple`. */
  datatype Tuple = Row(table: string, cells: seq<(string, Value)>) | Joined(left: Tuple, right: Tuple)

  /**
    `Outer` is a field of the enclosing query of a correlated subquery.  `Runtime` is a predicate
    evaluated per row by a closure: a correlated subquery, or an IN list on a computed operand.
    `Arith` has one or two operands and carries the static choice between integer and floating
    arithmetic.
   */
  datatype Expr =
    | Field(table: string, name: string)
    | Const(v: Value)
    | Outer(table: string, name: string)
    | Runtime(id: nat)
    | Cast(child: Expr, to: AttrType)
    | Arith(op: ArithOp, ints: bool, operands: seq<Expr>)
    | Compare(comp: CompOp, left: Expr, right: Expr)
    | Conj(kind: ConjKind, children: seq<Expr>)
    | Call(name: string, args: seq<Expr>)

  /**
    Everything evaluation takes from elsewhere: conversions and comparison of `Value`, arithmetic,
    scalar functions, the enclosing row and the subqueries.  All results hold for any choice.
   */
  datatype Env = Env(
    compare: (Value, Value) -> int,
    truth: Value -> bool,
    text: Value -> string,
    divByZero: Value -> bool,
    arith: (ArithOp, bool, seq<Value>) -> Option<Value>,
    call: (string, seq<Value>) -> Option<Value>,
    outer: (string, string) -> Option<Value>,
    runtime: (nat, Tuple) -> bool)

  function TypeOf(v: Value): AttrType {
    match v
    case Null => Nulls
    case Boolean(_) => Booleans
    case Integer(_) => Integers
    case Float(_) => Floats
    case Chars(_) => Strings
    case Date(_) => Dates
  }

  /** `Value::get_boolean`. */
  predicate Truth(env: Env, v: Value) {
    match v
    case Null => false
    case Boolean(b) => b
    case _ => env.truth(v)
  }

  function Lookup(cells: seq<(string, Value)>, field: string): Option<Value> {
    if cells == [] then None
    else if cells[0].0 == field then Some(cells[0].1)
    else Lookup(cells[1..], field)
  }

  /** `find_cell`: a row answers for its own table (or for no table name), a join asks left first. */
  function FindCell(t: Tuple, table: string, field: string): Option<Value> {
    match t
    case Row(own, cells) => if table != "" && table != own then None else Lookup(cells, field)
    case Joined(l, r) =>
      var found := FindCell(l, table, field);
      if found.Some? then found else FindCell(r, table, field)
  }

  function CastTo(env: Env, v: Value, to: AttrType): Option<Value> {
    if TypeOf(v) == to then Some(v)
    else if to == Booleans then Some(if v.Null? then Null else Boolean(Truth(env, v)))
    else None
  }

  /** `compare_value`. */
  function CompareValues(env: Env, comp: CompOp, a: Value, b: Value): Option<Value> {
    if comp == IsNull then Some(Boolean(a.Null?))
    else if comp == IsNotNull then Some(Boolean(!a.Null?))
    else if a.Null? || b.Null? then Some(Boolean(false))
    else if env.divByZero(a) || env.divByZero(b) then Some(Boolean(false))
    else
      var c := env.compare(a, b);
      match comp
      case EqualTo => Some(Boolean(c == 0))
      case LessEqual => Some(Boolean(c <= 0))
      case NotEqual => Some(Boolean(c != 0))
      case LessThan => Some(Boolean(c < 0))
      case GreatEqual => Some(Boolean(c >= 0))
      case GreatThan => Some(Boolean(c > 0))
      case LikeOp => Some(Boolean(Like.Greedy(env.text(a), env.text(b))))
      case NotLike => Some(Boolean(!Like.Greedy(env.text(a), env.text(b))))
      case _ => None
  }

  /** `calc_value`: a null operand makes the result null. */
  function Calc(env: Env, op: ArithOp, ints: bool, vs: seq<Value>): Option<Value> {
    if Null in vs then Some(Null) else env.arith(op, ints, vs)
  }

  /** `get_value`; `None` is a failing return code. */
  function Eval(env: Env, e: Expr, t: Tuple): Option<Value>
    decreases e, 1
  {
    match e
    case Field(table, name) => FindCell(t, table, name)
    case Const(v) => Some(v)
    case Outer(table, name) => env.outer(table, name)
    case Runtime(id) => Some(Boolean(env.runtime(id, t)))
    case Cast(child, to) =>
      var v :- Eval(env, child, t);
      CastTo(env, v, to)
    case Arith(op, ints, operands) =>
      var vs :- EvalAll(env, operands, t);
      Calc(env, op, ints, vs)
    case Compare(comp, l, r) =>
      var a :- Eval(env, l, t);
      var b :- Eval(env, r, t);
      CompareValues(env, comp, a, b)
    case Conj(kind, children) =>
      if children == [] then Some(Boolean(true)) else EvalConj(env, kind, children, t)
    case Call(name, args) =>
      var vs :- EvalAll(env, args, t);
      env.call(name, vs)
  }

  function EvalAll(env: Env, es: seq<Expr>, t: Tuple): Option<seq<Value>>
    decreases es, 0
  {
    if es == [] then Some([])
    else
      var v :- Eval(env, es[0], t);
      var vs :- EvalAll(env, es[1..], t);
      Some([v] + vs)
  }

  /** The loop of `ConjunctionExpr::get_value`: stop at the first child that decides. */
  function EvalConj(env: Env, kind: ConjKind, children: seq<Expr>, t: Tuple): Option<Value>
    decreases children, 0
  {
    if children == [] then Some(Boolean(kind.And?))
    else
      var v :- Eval(env, children[0], t);
      if Truth(env, v) == kind.Or? then Some(Boolean(kind.Or?))
      else EvalConj(env, kind, children[1..], t)
  }

  /** `try_get_value`: the value without a tuple. */
  function TryEval(env: Env, e: Expr): Option<Value>
    decreases e, 1
  {
    match e
    case Const(v) => Some(v)
    case Cast(child, to) =>
      var v :- TryEval(env, child);
      CastTo(env, v, to)
    case Arith(op, ints, operands) =>
      var vs :- TryEvalAll(env, operands);
      Calc(env, op, ints, vs)
    case Compare(comp, l, r) =>
      var a :- TryEval(env, l);
      var b :- TryEval(env, r);
      CompareValues(env, comp, a, b)
    case Call(name, args) =>
      var vs :- TryEvalAll(env, args);
      env.call(name, vs)
    case _ => None
  }

  function TryEvalAll(env: Env, es: seq<Expr>): Option<seq<Value>>
    decreases es, 0
  {
    if es == [] then Some([])
    else
      var v :- TryEval(env, es[0]);
      var vs :- TryEvalAll(env, es[1..]);
      Some([v] + vs)
  }

  /** A tuple passes a filter when the expression evaluates to a true value. */
  predicate Keep(env: Env, e: Expr, t: Tuple) {
    var v := Eval(env, e, t);
    v.Some? && Truth(env, v.value)
  }

  predicate KeepAll(env: Env, es: seq<Expr>, t: Tuple) {
    es == [] || (Keep(env, es[0], t) && KeepAll(env, es[1..], t))
  }

  lemma {:induction false} KeepAllMembers(env: Env, es: seq<Expr>, t: Tuple)
    ensures KeepAll(env, es, t) <==> forall e :: e in es ==> Keep(env, e, t)
  {
    if es != [] {
      KeepAllMembers(env, es[1..], t);
      assert es == [es[0]] + es[1..];
    }
  }

  lemma {:induction false} KeepAllConcat(env: Env, es: seq<Expr>, fs: seq<Expr>, t: Tuple)
    ensures KeepAll(env, es + fs, t) == (KeepAll(env, es, t) && KeepAll(env, fs, t))
  {
    if es == [] {
      assert es + fs == fs;
    } else {
      KeepAllConcat(env, es[1..], fs, t);
      assert (es + fs)[1..] == es[1..] + fs;
    }
  }

  /** Constant folding agrees with evaluation on every tuple. */
  lemma {:induction false} FoldingAgrees(env: Env, e: Expr, t: Tuple)
    requires TryEval(env, e).Some?
    ensures Eval(env, e, t) == TryEval(env, e)
    decreases e, 1
  {
    match e
    case Cast(child, _) => FoldingAgrees(env, child, t);
    case Arith(_, _, operands) => FoldingAgreesAll(env, operands, t);
    case Compare(_, l, r) =>
      FoldingAgrees(env, l, t);
      FoldingAgrees(env, r, t);
    case Call(_, args) => FoldingAgreesAll(env, args, t);
    case _ =>
  }

  lemma {:induction false} FoldingAgreesAll(env: Env, es: seq<Expr>, t: Tuple)
    requires TryEvalAll(env, es).Some?
    ensures EvalAll(env, es, t) == TryEvalAll(env, es)
    decreases es, 0
  {
    if es != [] {
      FoldingAgrees(env, es[0], t);
      FoldingAgreesAll(env, es[1..], t);
    }
  }

  /** An AND keeps a tuple exactly when each child does, in any order and whatever fails to evaluate. */
  lemma {:induction false} KeepAnd(env: Env, es: seq<Expr>, t: Tuple)
    ensures Keep(env, Conj(And, es), t) == KeepAll(env, es, t)
  {
    if es != [] {
      KeepAndFrom(env, es, t);
    }
  }

  lemma {:induction false} KeepAndFrom(env: Env, es: seq<Expr>, t: Tuple)
    ensures var v := EvalConj(env, And, es, t);
            (v.Some? && Truth(env, v.value)) == KeepAll(env, es, t)
  {
    if es != [] {
      KeepAndFrom(env, es[1..], t);
    }
  }

  lemma Assoc<T>(a: seq<T>, b: seq<T>, c: seq<T>)
    ensures (a + b) + c == a + (b + c)
  {
  }

  // --- Which tables an expression looks at ---

  /** `collect_table_refs`. */
  function TableRefs(e: Expr): set<string>
    decreases e, 1
  {
    match e
    case Field(table, _) => {table}
    case Cast(child, _) => TableRefs(child)
    case Arith(_, _, operands) => TableRefsAll(operands)
    case Compare(_, l, r) => TableRefs(l) + TableRefs(r)
    case Conj(_, children) => TableRefsAll(children)
    case Call(_, args) => TableRefsAll(args)
    case _ => {}
  }

  function TableRefsAll(es: seq<Expr>): set<string>
    decreases es, 0
  {
    if es == [] then {} else TableRefs(es[0]) + TableRefsAll(es[1..])
  }

  /** No subquery predicate inside. */
  predicate NoRuntime(e: Expr)
    decreases e, 1
  {
    match e
    case Runtime(_) => false
    case Cast(child, _) => NoRuntime(child)
    case Arith(_, _, operands) => NoRuntimeAll(operands)
    case Compare(_, l, r) => NoRuntime(l) && NoRuntime(r)
    case Conj(_, children) => NoRuntimeAll(children)
    case Call(_, args) => NoRuntimeAll(args)
    case _ => true
  }

  predicate NoRuntimeAll(es: seq<Expr>)
    decreases es, 0
  {
    es == [] || (NoRuntime(es[0]) && NoRuntimeAll(es[1..]))
  }

  function Tables(t: Tuple): set<string> {
    match t
    case Row(table, _) => {table}
    case Joined(l, r) => Tables(l) + Tables(r)
  }

  lemma {:induction false} ForeignTable(t: Tuple, table: string, field: string)
    requires table != "" && table !in Tables(t)
    ensures FindCell(t, table, field) == None
  {
    if t.Joined? {
      ForeignTable(t.left, table, field);
      ForeignTable(t.right, table, field);
    }
  }

  /**
    `part` is one side of the join tuple `whole`, and the other side has none of the tables `refs`:
    cells of `refs` read the same in both.
   */
  ghost predicate SidesWith(whole: Tuple, part: Tuple, refs: set<string>) {
    && whole.Joined?
    && "" !in refs
    && ((part == whole.left && refs !! Tables(whole.right)) || (part == whole.right && refs !! Tables(whole.left)))
  }

  /** The value of an expression depends only on the tables that `TableRefs` reports. */
  lemma {:induction false} Locality(env: Env, e: Expr, whole: Tuple, part: Tuple)
    requires NoRuntime(e) && SidesWith(whole, part, TableRefs(e))
    ensures Eval(env, e, whole) == Eval(env, e, part)
    decreases e, 1
  {
    match e
    case Field(table, name) =>
      if part == whole.left && table !in Tables(whole.right) {
        ForeignTable(whole.right, table, name);
      } else {
        ForeignTable(whole.left, table, name);
      }
    case Cast(child, _) => Locality(env, child, whole, part);
    case Arith(_, _, operands) => LocalityAll(env, operands, whole, part);
    case Compare(_, l, r) =>
      Locality(env, l, whole, part);
      Locality(env, r, whole, part);
    case Conj(kind, children) => LocalityConj(env, kind, children, whole, part);
    case Call(_, args) => LocalityAll(env, args, whole, part);
    case _ =>
  }

  lemma {:induction false} LocalityAll(env: Env, es: seq<Expr>, whole: Tuple, part: Tuple)
    requires NoRuntimeAll(es) && SidesWith(whole, part, TableRefsAll(es))
    ensures EvalAll(env, es, whole) == EvalAll(env, es, part)
    decreases es, 0
  {
    if es != [] {
      Locality(env, es[0], whole, part);
      LocalityAll(env, es[1..], whole, part);
    }
  }

  lemma {:induction false} LocalityConj(env: Env, kind: ConjKind, es: seq<Expr>, whole: Tuple, part: Tuple)
    requires NoRuntimeAll(es) && SidesWith(whole, part, TableRefsAll(es))
    ensures EvalConj(env, kind, es, whole) == EvalConj(env, kind, es, part)
    decreases es, 0
  {
    if es != [] {
      Locality(env, es[0], whole, part);
      LocalityConj(env, kind, es[1..], whole, part);
    }
  }

  // --- Copies of expressions ---

  /** `clone_expr_tree`: a subquery predicate cannot be copied and becomes the constant true. */
  function Clone(e: Expr): Expr
    decreases e, 1
  {
    match e
    case Runtime(_) => Const(Boolean(true))
    case Cast(child, to) => Cast(Clone(child), to)
    case Arith(op, ints, operands) => Arith(op, ints, CloneAll(operands))
    case Compare(comp, l, r) => Compare(comp, Clone(l), Clone(r))
    case Conj(kind, children) => Conj(kind, CloneAll(children))
    case Call(name, args) => Call(name, CloneAll(args))
    case _ => e
  }

  function CloneAll(es: seq<Expr>): (r: seq<Expr>)
    ensures |r| == |es|
    decreases es, 0
  {
    if es == [] then [] else [Clone(es[0])] + CloneAll(es[1..])
  }

  /** A clone is a copy exactly when no subquery predicate is inside. */
  lemma {:induction false} CloneIsCopy(e: Expr)
    ensures Clone(e) == e <==> NoRuntime(e)
    decreases e, 1
  {
    match e
    case Cast(child, _) => CloneIsCopy(child);
    case Arith(_, _, operands) => CloneAllIsCopy(operands);
    case Compare(_, l, r) => CloneIsCopy(l); CloneIsCopy(r);
    case Conj(_, children) => CloneAllIsCopy(children);
    case Call(_, args) => CloneAllIsCopy(args);
    case _ =>
  }

  lemma {:induction false} CloneAllIsCopy(es: seq<Expr>)
    ensures CloneAll(es) == es <==> NoRuntimeAll(es)
    decreases es, 0
  {
    if es != [] {
      CloneIsCopy(es[0]);
      CloneAllIsCopy(es[1..]);
      assert es == [es[0]] + es[1..];
      assert CloneAll(es)[1..] == CloneAll(es[1..]) && CloneAll(es)[0] == Clone(es[0]);
    }
  }

  /** An OR with a subquery predicate inside is cloned to one that keeps every row. */
  lemma ClonedKeepsAll(env: Env, id: nat, e: Expr, t: Tuple)
    ensures Keep(env, Clone(Conj(Or, [Runtime(id), e])), t)
  {
    var es, first := [Runtime(id), e], Const(Boolean(true));
    assert es[1..] == [e] && Clone(es[0]) == first && CloneAll(es)[0] == first;
    assert Eval(env, first, t) == Some(Boolean(true));
  }

  // --- What comparisons mean ---

  /** `Value::compare` orders integers. */
  ghost predicate OrdersIntegers(env: Env) {
    forall i, j :: (env.compare(Integer(i), Integer(j)) < 0 <==> i < j) && (env.compare(Integer(i), Integer(j)) == 0 <==> i == j)
  }

  /** The value that stands for a division by zero compares with nothing. */
  predicate Ordinary(env: Env, v: Value) {
    !v.Null? && !env.divByZero(v)
  }

  /** A comparison of two expressions whose values are integers is the comparison of the numbers. */
  lemma IntegersCompare(env: Env, l: Expr, r: Expr, t: Tuple, i: int, j: int)
    requires OrdersIntegers(env) && Eval(env, l, t) == Some(Integer(i)) && Eval(env, r, t) == Some(Integer(j))
    requires Ordinary(env, Integer(i)) && Ordinary(env, Integer(j))
    ensures Eval(env, Compare(LessThan, l, r), t) == Some(Boolean(i < j))
    ensures Eval(env, Compare(LessEqual, l, r), t) == Some(Boolean(i <= j))
    ensures Eval(env, Compare(GreatThan, l, r), t) == Some(Boolean(i > j))
    ensures Eval(env, Compare(GreatEqual, l, r), t) == Some(Boolean(i >= j))
    ensures Eval(env, Compare(EqualTo, l, r), t) == Some(Boolean(i == j))
    ensures Eval(env, Compare(NotEqual, l, r), t) == Some(Boolean(i != j))
  {
    var c := env.compare(Integer(i), Integer(j));
    assert (c < 0 <==> i < j) && (c == 0 <==> i == j);
  }

  /** Whether a comparison operator accepts the answer of `Value::compare`. */
  predicate Accepts(comp: CompOp, c: int) {
    match comp
    case LessThan => c < 0
    case LessEqual => c < 0 || c == 0
    case EqualTo => c == 0
    case NotEqual => c < 0 || c > 0
    case GreatEqual => c > 0 || c == 0
    case GreatThan => c > 0
    case _ => false
  }

  /** For any values, dates, characters and floating point included, the comparison is as `Value::compare` orders them. */
  lemma ValuesCompare(env: Env, comp: CompOp, l: Expr, r: Expr, t: Tuple, a: Value, b: Value)
    requires Eval(env, l, t) == Some(a) && Eval(env, r, t) == Some(b) && Ordinary(env, a) && Ordinary(env, b)
    requires comp in {LessThan, LessEqual, EqualTo, NotEqual, GreatEqual, GreatThan}
    ensures Eval(env, Compare(comp, l, r), t) == Some(Boolean(Accepts(comp, env.compare(a, b))))
  {
  }

  /** LIKE, on subjects without `%`, is the meaning of the pattern; NOT LIKE is its negation. */
  lemma LikeCompares(env: Env, l: Expr, r: Expr, t: Tuple, a: Value, b: Value)
    requires Eval(env, l, t) == Some(a) && Eval(env, r, t) == Some(b) && Ordinary(env, a) && Ordinary(env, b)
    requires '%' !in env.text(a)
    ensures Eval(env, Compare(LikeOp, l, r), t) == Some(Boolean(Like.Matches(env.text(a), env.text(b))))
    ensures Eval(env, Compare(NotLike, l, r), t) == Some(Boolean(!Like.Matches(env.text(a), env.text(b))))
  {
    if Like.Greedy(env.text(a), env.text(b)) { Like.Sound(env.text(a), env.text(b)); }
    if Like.Matches(env.text(a), env.text(b)) { Like.Complete(env.text(a), env.text(b)); }
  }

  /** A null operand makes every comparison false but the two tests for null, which look at the left operand alone. */
  lemma NullCompares(env: Env, comp: CompOp, l: Expr, r: Expr, t: Tuple, a: Value, b: Value)
    requires Eval(env, l, t) == Some(a) && Eval(env, r, t) == Some(b)
    ensures Eval(env, Compare(IsNull, l, r), t) == Some(Boolean(a == Null))
    ensures Eval(env, Compare(IsNotNull, l, r), t) == Some(Boolean(a != Null))
    ensures comp != IsNull && comp != IsNotNull && (a == Null || b == Null) ==> Eval(env, Compare(comp, l, r), t) == Some(Boolean(false))
  {
  }

  /** The sentinel of a division by zero makes every comparison of other values false too, that with itself included. */
  lemma SentinelCompares(env: Env, comp: CompOp, l: Expr, r: Expr, t: Tuple, a: Value, b: Value)
    requires Eval(env, l, t) == Some(a) && Eval(env, r, t) == Some(b) && a != Null && b != Null
    requires comp != IsNull && comp != IsNotNull && (env.divByZero(a) || env.divByZero(b))
    ensures Eval(env, Compare(comp, l, r), t) == Some(Boolean(false))
  {
  }

  /** A row passes a condition that is true on it, and neither one that is null nor one that fails. */
  lemma KeepMeans(env: Env, e: Expr, t: Tuple)
    ensures forall b :: Eval(env, e, t) == Some(Boolean(b)) ==> (Keep(env, e, t) <==> b)
    ensures Eval(env, e, t) == Some(Null) || Eval(env, e, t) == None ==> !Keep(env, e, t)
  {
  }

  // --- What a field reads ---

  /** A row has the value of its first cell of that name, for its own table name or none. */
  lemma {:induction false} RowReads(env: Env, table: string, own: string, cells: seq<(string, Value)>, name: string, i: nat)
    requires i < |cells| && cells[i].0 == name && forall j :: 0 <= j < i ==> cells[j].0 != name
    ensures Eval(env, Field(table, name), Row(own, cells)) == if table == "" || table == own then Some(cells[i].1) else None
  {
    if i > 0 {
      assert forall j :: 0 <= j < i - 1 ==> cells[1..][j] == cells[j + 1];
      RowReads(env, table, own, cells[1..], name, i - 1);
      assert Lookup(cells, name) == Lookup(cells[1..], name);
    }
  }

  /** A joined row reads the left side first. */
  lemma JoinReads(env: Env, table: string, name: string, l: Tuple, r: Tuple)
    ensures var v := Eval(env, Field(table, name), Joined(l, r));
      v == if Eval(env, Field(table, name), l) != None then Eval(env, Field(table, name), l) else Eval(env, Field(table, name), r)
  {
  }

  // --- What other operators mean ---

  /** Operands are evaluated in order, and all have to have a value. */
  lemma {:induction false} OperandsInOrder(env: Env, es: seq<Expr>, t: Tuple)
    ensures EvalAll(env, es, t).Some? <==> forall i :: 0 <= i < |es| ==> Eval(env, es[i], t).Some?
    ensures EvalAll(env, es, t).Some? ==>
      |EvalAll(env, es, t).value| == |es| && forall i :: 0 <= i < |es| ==> Eval(env, es[i], t) == Some(EvalAll(env, es, t).value[i])
    decreases es
  {
    if es != [] {
      OperandsInOrder(env, es[1..], t);
      assert forall i :: 1 <= i < |es| ==> es[i] == es[1..][i - 1];
      assert forall i :: 0 <= i < |es| - 1 ==> es[1..][i] == es[i + 1];
    }
  }

  /** Arithmetic is null on a null operand, and otherwise what the operator makes of the values in order. */
  lemma BinaryMeans(env: Env, op: ArithOp, ints: bool, l: Expr, r: Expr, t: Tuple, a: Value, b: Value)
    requires Eval(env, l, t) == Some(a) && Eval(env, r, t) == Some(b)
    ensures Eval(env, Arith(op, ints, [l, r]), t) == if a == Null || b == Null then Some(Null) else env.arith(op, ints, [a, b])
    ensures forall f :: Eval(env, Call(f, [l, r]), t) == env.call(f, [a, b])
  {
    OperandsInOrder(env, [l, r], t);
    assert EvalAll(env, [l, r], t).value == [a, b];
  }

  /** A cast keeps a value of its type, makes a truth value of any other, null included, and fails for other types. */
  lemma CastMeans(env: Env, e: Expr, to: AttrType, t: Tuple, v: Value)
    requires Eval(env, e, t) == Some(v)
    ensures var r := Eval(env, Cast(e, to), t);
      && (TypeOf(v) == to ==> r == Some(v))
      && (TypeOf(v) != to && to != Booleans ==> r == None)
      && (v != Null && TypeOf(v) != Booleans && to == Booleans ==> r == Some(Boolean(env.truth(v))))
      && (v == Null && to == Booleans ==> r == Some(Null))
  {
  }
}
