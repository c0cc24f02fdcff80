/**
  Logical operators and the rows they produce (src/observer/sql/operator/logical_operator.h and the
  physical operators each one is executed by).
 */
module LogicalPlan {
  import opened Options
  import opened Expressions

  datatype OpKind =
    | TableGet(table: string, predicates: seq<Expr>)
    | Predicate
    | Join
    | Project(fields: seq<(string, string)>, outputs: seq<Expr>)
    | Delete(target: string)
    | Explain

  /** `exprs` is what `LogicalOperator::expressions()` returns; a projection keeps its own list apart. */
  datatype Op = Op(kind: OpKind, exprs: seq<Expr>, children: seq<Op>)

  type Database = map<string, seq<seq<(string, Value)>>>

  function Scan(db: Database, table: string): seq<Tuple> {
    if table in db then seq(|db[table]|, i requires 0 <= i < |db[table]| => Row(table, db[table][i])) else []
  }

  /** The tuples that pass all of `es`, in order. */
  function Select(env: Env, rows: seq<Tuple>, es: seq<Expr>): seq<Tuple> {
    if rows == [] then []
    else (if KeepAll(env, es, rows[0]) then [rows[0]] else []) + Select(env, rows[1..], es)
  }

  function PairWith(l: Tuple, rs: seq<Tuple>): seq<Tuple> {
    if rs == [] then [] else [Joined(l, rs[0])] + PairWith(l, rs[1..])
  }

  /** All pairs in row-major order. */
  function Product(ls: seq<Tuple>, rs: seq<Tuple>): seq<Tuple> {
    if ls == [] then [] else PairWith(ls[0], rs) + Product(ls[1..], rs)
  }

  /**
    The rows an operator delivers.  A projection or a deletion handles each row of its first child,
    and handles none without a child.
   */
  function Rows(env: Env, db: Database, op: Op): seq<Tuple>
    decreases op
  {
    match op.kind
    case TableGet(table, predicates) => Select(env, Scan(db, table), predicates)
    case Predicate =>
      if |op.children| == 1 && |op.exprs| == 1
      then Select(env, Rows(env, db, op.children[0]), op.exprs)
      else []
    case Join =>
      if |op.children| == 2
      then Product(Rows(env, db, op.children[0]), Rows(env, db, op.children[1]))
      else []
    case _ => if op.children == [] then [] else Rows(env, db, op.children[0])
  }

  lemma {:induction false} SelectConcat(env: Env, a: seq<Tuple>, b: seq<Tuple>, es: seq<Expr>)
    ensures Select(env, a + b, es) == Select(env, a, es) + Select(env, b, es)
  {
    if a == [] {
      assert a + b == b;
    } else {
      assert (a + b)[1..] == a[1..] + b;
      SelectConcat(env, a[1..], b, es);
    }
  }

  lemma {:induction false} SelectMember(env: Env, rows: seq<Tuple>, es: seq<Expr>, t: Tuple)
    ensures t in Select(env, rows, es) <==> t in rows && KeepAll(env, es, t)
  {
    if rows != [] {
      SelectMember(env, rows[1..], es, t);
    }
  }

  lemma {:induction false} SelectSame(env: Env, rows: seq<Tuple>, es: seq<Expr>, fs: seq<Expr>)
    requires forall t :: t in rows ==> KeepAll(env, es, t) == KeepAll(env, fs, t)
    ensures Select(env, rows, es) == Select(env, rows, fs)
  {
    if rows != [] {
      SelectSame(env, rows[1..], es, fs);
    }
  }

  lemma SelectCons(env: Env, t: Tuple, rows: seq<Tuple>, es: seq<Expr>)
    ensures Select(env, [t] + rows, es) == (if KeepAll(env, es, t) then [t] else []) + Select(env, rows, es)
  {
    assert ([t] + rows)[1..] == rows;
  }

  /** More conditions select fewer rows, unless the further ones never matter. */
  lemma {:induction false} SelectMore(env: Env, rows: seq<Tuple>, es: seq<Expr>, fs: seq<Expr>)
    ensures |Select(env, rows, es + fs)| <= |Select(env, rows, fs)|
    ensures Select(env, rows, es + fs) == Select(env, rows, fs)
            <==> forall t :: t in rows && KeepAll(env, fs, t) ==> KeepAll(env, es, t)
  {
    if rows != [] {
      SelectMore(env, rows[1..], es, fs);
      KeepAllConcat(env, es, fs, rows[0]);
      var a, b := Select(env, rows[1..], es + fs), Select(env, rows[1..], fs);
      if KeepAll(env, fs, rows[0]) {
        if KeepAll(env, es, rows[0]) {
          assert ([rows[0]] + a)[1..] == a && ([rows[0]] + b)[1..] == b;
        } else {
          assert |Select(env, rows, es + fs)| < |Select(env, rows, fs)|;
        }
      } else {
        assert Select(env, rows, es + fs) == a && Select(env, rows, fs) == b;
      }
    }
  }

  lemma {:induction false} SelectTwice(env: Env, rows: seq<Tuple>, es: seq<Expr>, fs: seq<Expr>)
    ensures Select(env, Select(env, rows, es), fs) == Select(env, rows, es + fs)
  {
    if rows != [] {
      SelectTwice(env, rows[1..], es, fs);
      KeepAllConcat(env, es, fs, rows[0]);
      SelectCons(env, rows[0], Select(env, rows[1..], es), fs);
      assert [] + Select(env, rows[1..], es) == Select(env, rows[1..], es);
    }
  }

  lemma {:induction false} SelectNothing(env: Env, rows: seq<Tuple>)
    ensures Select(env, rows, []) == rows
  {
    if rows != [] {
      SelectNothing(env, rows[1..]);
    }
  }

  /** One AND filters like its children. */
  lemma SelectAnd(env: Env, rows: seq<Tuple>, es: seq<Expr>)
    ensures Select(env, rows, [Conj(And, es)]) == Select(env, rows, es)
  {
    forall t | t in rows ensures KeepAll(env, [Conj(And, es)], t) == KeepAll(env, es, t) {
      KeepAnd(env, es, t);
      assert KeepAll(env, [Conj(And, es)][1..], t);
    }
    SelectSame(env, rows, [Conj(And, es)], es);
  }

  lemma {:induction false} PairMember(l: Tuple, rs: seq<Tuple>, t: Tuple)
    ensures t in PairWith(l, rs) <==> t.Joined? && t.left == l && t.right in rs
  {
    if rs != [] {
      PairMember(l, rs[1..], t);
    }
  }

  lemma {:induction false} ProductMember(ls: seq<Tuple>, rs: seq<Tuple>, t: Tuple)
    ensures t in Product(ls, rs) <==> t.Joined? && t.left in ls && t.right in rs
  {
    if ls != [] {
      PairMember(ls[0], rs, t);
      ProductMember(ls[1..], rs, t);
    }
  }

  /** The filter `es` on pairs asks `fs` of the left and `gs` of the right. */
  ghost predicate Splits(env: Env, ls: seq<Tuple>, rs: seq<Tuple>, es: seq<Expr>, fs: seq<Expr>, gs: seq<Expr>) {
    forall l, r :: l in ls && r in rs ==>
      KeepAll(env, es, Joined(l, r)) == (KeepAll(env, fs, l) && KeepAll(env, gs, r))
  }

  lemma {:induction false} SelectPairs(env: Env, l: Tuple, rs: seq<Tuple>, es: seq<Expr>, fs: seq<Expr>, gs: seq<Expr>)
    requires forall r :: r in rs ==> KeepAll(env, es, Joined(l, r)) == (KeepAll(env, fs, l) && KeepAll(env, gs, r))
    ensures Select(env, PairWith(l, rs), es) == if KeepAll(env, fs, l) then PairWith(l, Select(env, rs, gs)) else []
  {
    if rs != [] {
      SelectPairs(env, l, rs[1..], es, fs, gs);
      SelectCons(env, Joined(l, rs[0]), PairWith(l, rs[1..]), es);
      PairCons(l, rs[0], Select(env, rs[1..], gs));
      assert [] + Select(env, rs[1..], gs) == Select(env, rs[1..], gs);
    }
  }

  lemma PairCons(l: Tuple, r: Tuple, rs: seq<Tuple>)
    ensures PairWith(l, [r] + rs) == [Joined(l, r)] + PairWith(l, rs)
  {
    assert ([r] + rs)[1..] == rs;
  }

  lemma ProductCons(l: Tuple, ls: seq<Tuple>, rs: seq<Tuple>)
    ensures Product([l] + ls, rs) == PairWith(l, rs) + Product(ls, rs)
  {
    assert ([l] + ls)[1..] == ls;
  }

  /** Filtering before a join equals filtering after it. */
  lemma {:induction false} SelectProduct(env: Env, ls: seq<Tuple>, rs: seq<Tuple>, es: seq<Expr>, fs: seq<Expr>, gs: seq<Expr>)
    requires Splits(env, ls, rs, es, fs, gs)
    ensures Select(env, Product(ls, rs), es) == Product(Select(env, ls, fs), Select(env, rs, gs))
  {
    if ls != [] {
      SelectConcat(env, PairWith(ls[0], rs), Product(ls[1..], rs), es);
      SelectPairs(env, ls[0], rs, es, fs, gs);
      SelectProduct(env, ls[1..], rs, es, fs, gs);
      ProductCons(ls[0], Select(env, ls[1..], fs), Select(env, rs, gs));
      assert [] + Select(env, ls[1..], fs) == Select(env, ls[1..], fs);
    }
  }

  lemma {:induction false} SelectNone(env: Env, rows: seq<Tuple>, es: seq<Expr>)
    requires forall t :: t in rows ==> !KeepAll(env, es, t)
    ensures Select(env, rows, es) == []
  {
    if rows != [] { SelectNone(env, rows[1..], es); }
  }

  lemma SameFilter(env: Env, rows: seq<Tuple>, es: seq<Expr>, fs: seq<Expr>)
    requires |es| == |fs| && forall i, t :: 0 <= i < |es| ==> Eval(env, es[i], t) == Eval(env, fs[i], t)
    ensures Select(env, rows, es) == Select(env, rows, fs)
  {
    forall t | t in rows ensures KeepAll(env, es, t) == KeepAll(env, fs, t) {
      SameKeep(env, es, fs, t);
    }
    SelectSame(env, rows, es, fs);
  }

  lemma {:induction false} SameKeep(env: Env, es: seq<Expr>, fs: seq<Expr>, t: Tuple)
    requires |es| == |fs| && forall i :: 0 <= i < |es| ==> Eval(env, es[i], t) == Eval(env, fs[i], t)
    ensures KeepAll(env, es, t) == KeepAll(env, fs, t)
  {
    if es != [] {
      assert Eval(env, es[0], t) == Eval(env, fs[0], t);
      SameKeep(env, es[1..], fs[1..], t);
    }
  }

  /** A scan delivers the records of the table, in order, each under the table's name. */
  lemma ScanAt(db: Database, table: string, i: nat)
    ensures |Scan(db, table)| == if table in db then |db[table]| else 0
    ensures table in db && i < |db[table]| ==> Scan(db, table)[i] == Row(table, db[table][i])
  {
  }

  // --- Rows in row-major order ---

  lemma {:induction false} PairsAt(l: Tuple, rs: seq<Tuple>, j: nat)
    ensures |PairWith(l, rs)| == |rs|
    ensures j < |rs| ==> PairWith(l, rs)[j] == Joined(l, rs[j])
  {
    if rs != [] { PairsAt(l, rs[1..], if j > 0 then j - 1 else 0); }
  }

  lemma {:induction false} ProductSize(ls: seq<Tuple>, rs: seq<Tuple>)
    ensures |Product(ls, rs)| == |ls| * |rs|
  {
    if ls != [] {
      ProductSize(ls[1..], rs);
      PairsAt(ls[0], rs, 0);
    }
  }

  lemma RowStart(i: nat, n: nat, j: nat)
    requires i > 0
    ensures i * n + j == n + ((i - 1) * n + j) && (i - 1) * n >= 0
  {
  }

  /** All pairs, the left row changing slowest. */
  lemma {:induction false} ProductAt(ls: seq<Tuple>, rs: seq<Tuple>, i: nat, j: nat)
    requires i < |ls| && j < |rs|
    ensures i * |rs| + j < |Product(ls, rs)| == |ls| * |rs|
    ensures Product(ls, rs)[i * |rs| + j] == Joined(ls[i], rs[j])
  {
    ProductSize(ls, rs);
    ProductSize(ls[1..], rs);
    PairsAt(ls[0], rs, j);
    if i > 0 {
      ProductAt(ls[1..], rs, i - 1, j);
      RowStart(i, |rs|, j);
      assert Product(ls, rs)[|rs| + ((i - 1) * |rs| + j)] == Product(ls[1..], rs)[(i - 1) * |rs| + j];
    } else {
      RowStart(1, |rs|, 0);
      assert Product(ls, rs)[j] == PairWith(ls[0], rs)[j];
    }
  }

  /** `r` is what is left of `rows`: those at the places `at`, in order. */
  ghost predicate Picks(env: Env, es: seq<Expr>, rows: seq<Tuple>, r: seq<Tuple>, at: seq<nat>) {
    && |r| == |at|
    && (forall i :: 0 <= i < |r| ==> at[i] < |rows| && r[i] == rows[at[i]])
    && (forall i, j :: 0 <= i < j < |at| ==> at[i] < at[j])
    && (forall k :: 0 <= k < |rows| ==> ((forall e :: e in es ==> Keep(env, e, rows[k])) <==> k in at))
  }

  lemma SelectSnoc(env: Env, rows: seq<Tuple>, x: Tuple, es: seq<Expr>)
    ensures Select(env, rows + [x], es) == Select(env, rows, es) + if KeepAll(env, es, x) then [x] else []
  {
    SelectConcat(env, rows, [x], es);
    assert [x][1..] == [] && Select(env, [x], es) == if KeepAll(env, es, x) then [x] else [];
  }

  lemma PicksKept(env: Env, es: seq<Expr>, rows: seq<Tuple>, r: seq<Tuple>, at: seq<nat>, x: Tuple)
    requires Picks(env, es, rows, r, at) && forall e :: e in es ==> Keep(env, e, x)
    ensures Picks(env, es, rows + [x], r + [x], at + [|rows|])
  {
  }

  lemma PicksDropped(env: Env, es: seq<Expr>, rows: seq<Tuple>, r: seq<Tuple>, at: seq<nat>, x: Tuple)
    requires Picks(env, es, rows, r, at) && !forall e :: e in es ==> Keep(env, e, x)
    ensures Picks(env, es, rows + [x], r, at)
  {
  }

  /** A filter leaves exactly the rows that every condition keeps, each as often as it is there, in order. */
  lemma {:induction false} SelectPicks(env: Env, rows: seq<Tuple>, es: seq<Expr>) returns (at: seq<nat>)
    ensures Picks(env, es, rows, Select(env, rows, es), at)
  {
    if rows == [] {
      at := [];
    } else {
      var n := |rows| - 1;
      at := SelectPicks(env, rows[..n], es);
      assert rows == rows[..n] + [rows[n]];
      SelectSnoc(env, rows[..n], rows[n], es);
      KeepAllMembers(env, es, rows[n]);
      var before := Select(env, rows[..n], es);
      if KeepAll(env, es, rows[n]) {
        PicksKept(env, es, rows[..n], before, at, rows[n]);
        at := at + [n];
      } else {
        PicksDropped(env, es, rows[..n], before, at, rows[n]);
        assert before + [] == before;
      }
    }
  }
}
