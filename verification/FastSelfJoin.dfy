/**
  The shortcut for views of the form
  `SELECT COUNT(a.k), SUM(a.v) + SUM(b.v) FROM t a, t b WHERE a.k = b.k`:
  src/observer/sql/executor/create_view_executor.cpp.
 */
module FastSelfJoin {
  import opened Options

  /** A record: its fields' integers, null when absent. */
  type Record = map<string, Option<int>>
  type Pair = (Record, Record)

  function Get(x: Record, f: string): Option<int> {
    if f in x then x[f] else None
  }

  /** `Other` stands for every shape the matcher does not look into; its meaning is in `Rest`. */
  datatype Condition = Equal(lt: string, lf: string, rt: string, rf: string, connectOr: bool) | OtherCondition(id: nat)
  datatype Item = Count(table: string, field: string) | Sum(table: string, field: string) | Plus(l: Item, r: Item) | OtherItem(id: nat)
  datatype Rest = Rest(condition: (nat, Record, Record) -> bool, item: (nat, seq<Pair>) -> Option<int>)

  /** `bare`: no attributes, GROUP BY, HAVING or ORDER BY. */
  datatype Query = Query(relations: seq<string>, aliases: seq<string>, conditions: seq<Condition>, items: seq<Item>, bare: bool)

  datatype Spec = Spec(relation: string, joinField: string, sumField: string)

  /** `match_fast_self_join_agg`. */
  function Match(q: Query): Option<Spec> {
    if |q.relations| != 2 || |q.aliases| < 2 || q.relations[0] != q.relations[1]
       || q.aliases[0] == "" || q.aliases[1] == "" || q.aliases[0] == q.aliases[1]
       || |q.conditions| != 1 || |q.items| != 2 || !q.bare
    then None
    else
      var a, b, c := q.aliases[0], q.aliases[1], q.conditions[0];
      if !c.Equal? || c.connectOr || c.lf == "" || c.rf == "" then None
      else if !((c.lt == a && c.rt == b) || (c.lt == b && c.rt == a)) || c.lf != c.rf then None
      else if !q.items[0].Count? || q.items[0].field != c.lf || (q.items[0].table != a && q.items[0].table != b) then None
      else if !q.items[1].Plus? || !q.items[1].l.Sum? || !q.items[1].r.Sum? then None
      else
        var s, t := q.items[1].l, q.items[1].r;
        if s.field != t.field || !((s.table == a && t.table == b) || (s.table == b && t.table == a)) then None
        else Some(Spec(q.relations[0], c.lf, s.field))
  }

  /** The queries of the form above; `c`, `n` and `s` tell in which order the two aliases are named. */
  function Shaped(r: string, a: string, b: string, k: string, v: string, c: bool, n: bool, s: bool): Query {
    Query([r, r], [a, b],
          [Equal(if c then a else b, k, if c then b else a, k, false)],
          [Count(if n then a else b, k), Plus(Sum(if s then a else b, v), Sum(if s then b else a, v))], true)
  }

  /** All of them are accepted, with their relation and fields. */
  lemma ShapedMatches(r: string, a: string, b: string, k: string, v: string, c: bool, n: bool, s: bool)
    requires a != "" && b != "" && a != b && k != ""
    ensures Match(Shaped(r, a, b, k, v, c, n, s)) == Some(Spec(r, k, v))
  {
  }

  /** And no others with two aliases. */
  lemma MatchedIsShaped(q: Query) returns (c: bool, n: bool, s: bool)
    requires Match(q).Some? && |q.aliases| == 2
    ensures var spec, a, b := Match(q).value, q.aliases[0], q.aliases[1];
      && a != "" && b != "" && a != b && spec.joinField != ""
      && q == Shaped(spec.relation, a, b, spec.joinField, spec.sumField, c, n, s)
  {
    var a, b, cond := q.aliases[0], q.aliases[1], q.conditions[0];
    c, n, s := cond.lt == a, q.items[0].table == a, q.items[1].l.table == a;
    assert q.relations == [q.relations[0], q.relations[0]] && q.aliases == [a, b];
    assert q.conditions == [cond] && q.items == [q.items[0], q.items[1]];
  }

  // --- The meaning of a query over two relations ---

  function Cell(q: Query, table: string, field: string, p: Pair): Option<int>
    requires |q.aliases| >= 2
  {
    if table == q.aliases[0] then Get(p.0, field) else if table == q.aliases[1] then Get(p.1, field) else None
  }

  predicate Holds(q: Query, rest: Rest, c: Condition, p: Pair)
    requires |q.aliases| >= 2
  {
    match c
    case Equal(lt, lf, rt, rf, _) =>
      var l, r := Cell(q, lt, lf, p), Cell(q, rt, rf, p);
      l.Some? && r.Some? && l.value == r.value
    case OtherCondition(id) => rest.condition(id, p.0, p.1)
  }

  predicate HoldAll(q: Query, rest: Rest, cs: seq<Condition>, p: Pair)
    requires |q.aliases| >= 2
  {
    if cs == [] then true
    else
      var n := |cs| - 1;
      var before, now := HoldAll(q, rest, cs[..n], p), Holds(q, rest, cs[n], p);
      if cs[n].Equal? && cs[n].connectOr then before || now else before && now
  }

  /** Conditions connected by AND hold together. */
  lemma {:induction false} AndHolds(q: Query, rest: Rest, cs: seq<Condition>, p: Pair)
    requires |q.aliases| >= 2 && forall i :: 0 <= i < |cs| ==> !(cs[i].Equal? && cs[i].connectOr)
    ensures HoldAll(q, rest, cs, p) <==> forall i :: 0 <= i < |cs| ==> Holds(q, rest, cs[i], p)
  {
    if cs != [] { AndHolds(q, rest, cs[..|cs| - 1], p); }
  }

  /** Of conditions connected by OR, one holds. */
  lemma {:induction false} OrHolds(q: Query, rest: Rest, cs: seq<Condition>, p: Pair)
    requires |q.aliases| >= 2 && cs != [] && !(cs[0].Equal? && cs[0].connectOr)
    requires forall i :: 1 <= i < |cs| ==> cs[i].Equal? && cs[i].connectOr
    ensures HoldAll(q, rest, cs, p) <==> exists i :: 0 <= i < |cs| && Holds(q, rest, cs[i], p)
  {
    var n := |cs| - 1;
    if n > 0 {
      OrHolds(q, rest, cs[..n], p);
      if i :| 0 <= i < n && Holds(q, rest, cs[..n][i], p) { assert Holds(q, rest, cs[i], p); }
      if i :| 0 <= i < n && Holds(q, rest, cs[i], p) { assert Holds(q, rest, cs[..n][i], p); }
    } else {
      assert cs[..0] == [];
    }
  }

  function PairsOf(q: Query, rest: Rest, x: Record, ys: seq<Record>): seq<Pair>
    requires |q.aliases| >= 2
  {
    if ys == [] then []
    else (if HoldAll(q, rest, q.conditions, (x, ys[0])) then [(x, ys[0])] else []) + PairsOf(q, rest, x, ys[1..])
  }

  /** The joined pairs that satisfy the conditions, in row-major order. */
  function Pairs(q: Query, rest: Rest, xs: seq<Record>, ys: seq<Record>): seq<Pair>
    requires |q.aliases| >= 2
  {
    if xs == [] then [] else PairsOf(q, rest, xs[0], ys) + Pairs(q, rest, xs[1..], ys)
  }

  /** The non-null values of a column. */
  function Column(q: Query, table: string, field: string, ps: seq<Pair>): seq<int>
    requires |q.aliases| >= 2
  {
    if ps == [] then []
    else
      var v := Cell(q, table, field, ps[0]);
      (if v.Some? then [v.value] else []) + Column(q, table, field, ps[1..])
  }

  function Total(vs: seq<int>): int {
    if vs == [] then 0 else vs[0] + Total(vs[1..])
  }

  /** A select item over the joined pairs; SUM of no values is null, and so is a sum with a null operand. */
  function ItemValue(q: Query, rest: Rest, item: Item, ps: seq<Pair>): Option<int>
    requires |q.aliases| >= 2
  {
    match item
    case Count(t, f) => Some(|Column(q, t, f, ps)|)
    case Sum(t, f) =>
      var vs := Column(q, t, f, ps);
      if vs == [] then None else Some(Total(vs))
    case Plus(l, r) =>
      var a :- ItemValue(q, rest, l, ps);
      var b :- ItemValue(q, rest, r, ps);
      Some(a + b)
    case OtherItem(id) => rest.item(id, ps)
  }

  // --- The shortcut ---

  datatype Stat = Stat(count: nat, sum: int)

  function Weight(x: Record, spec: Spec): int {
    var v := Get(x, spec.sumField);
    if v.Some? then v.value else 0
  }

  /** How many of `xs` have key `k`, and the sum of their values. */
  function CountOf(xs: seq<Record>, spec: Spec, k: int): nat {
    if xs == [] then 0 else (if Get(xs[0], spec.joinField) == Some(k) then 1 else 0) + CountOf(xs[1..], spec, k)
  }

  function SumOf(xs: seq<Record>, spec: Spec, k: int): int {
    if xs == [] then 0 else (if Get(xs[0], spec.joinField) == Some(k) then Weight(xs[0], spec) else 0) + SumOf(xs[1..], spec, k)
  }

  lemma {:induction false} CountSnoc(xs: seq<Record>, spec: Spec, k: int, x: Record)
    ensures CountOf(xs + [x], spec, k) == CountOf(xs, spec, k) + if Get(x, spec.joinField) == Some(k) then 1 else 0
    ensures SumOf(xs + [x], spec, k) == SumOf(xs, spec, k) + if Get(x, spec.joinField) == Some(k) then Weight(x, spec) else 0
  {
    if xs == [] {
      assert [x][1..] == [] && [] + [x] == [x];
    } else {
      CountSnoc(xs[1..], spec, k, x);
      assert (xs + [x])[1..] == xs[1..] + [x];
    }
  }

  lemma CountSnocAll(xs: seq<Record>, spec: Spec, x: Record)
    ensures forall k :: CountOf(xs + [x], spec, k) == CountOf(xs, spec, k) + if Get(x, spec.joinField) == Some(k) then 1 else 0
    ensures forall k :: SumOf(xs + [x], spec, k) == SumOf(xs, spec, k) + if Get(x, spec.joinField) == Some(k) then Weight(x, spec) else 0
  {
    forall k: int {
      CountSnoc(xs, spec, k, x);
    }
  }

  /** The scan of the base table. */
  method Collect(xs: seq<Record>, spec: Spec) returns (stats: map<int, Stat>)
    ensures forall k :: k in stats <==> CountOf(xs, spec, k) > 0
    ensures forall k :: k in stats ==> stats[k] == Stat(CountOf(xs, spec, k), SumOf(xs, spec, k))
    ensures forall k :: k !in stats ==> SumOf(xs, spec, k) == 0
  {
    stats := map[];
    for i := 0 to |xs|
      invariant forall k :: k in stats <==> CountOf(xs[..i], spec, k) > 0
      invariant forall k :: k in stats ==> stats[k] == Stat(CountOf(xs[..i], spec, k), SumOf(xs[..i], spec, k))
      invariant forall k :: k !in stats ==> SumOf(xs[..i], spec, k) == 0
    {
      assert xs[..i + 1] == xs[..i] + [xs[i]];
      CountSnocAll(xs[..i], spec, xs[i]);
      var key := Get(xs[i], spec.joinField);
      if key.None? {
        continue;
      }
      var stat := if key.value in stats then stats[key.value] else Stat(0, 0);
      stat := stat.(count := stat.count + 1);
      var v := Get(xs[i], spec.sumField);
      if v.Some? {
        stat := stat.(sum := stat.sum + v.value);
      }
      stats := stats[key.value := stat];
    }
    assert xs[..|xs|] == xs;
  }

  // Over the pairs whose key is in `done`: how many, and the sums of the left and the right values.

  function CountIn(xs: seq<Record>, ys: seq<Record>, spec: Spec, done: set<int>): nat {
    if xs == [] then 0
    else
      var k := Get(xs[0], spec.joinField);
      (if k.Some? && k.value in done then CountOf(ys, spec, k.value) else 0) + CountIn(xs[1..], ys, spec, done)
  }

  function LeftIn(xs: seq<Record>, ys: seq<Record>, spec: Spec, done: set<int>): int {
    if xs == [] then 0
    else
      var k := Get(xs[0], spec.joinField);
      (if k.Some? && k.value in done then Weight(xs[0], spec) * CountOf(ys, spec, k.value) else 0)
      + LeftIn(xs[1..], ys, spec, done)
  }

  function RightIn(xs: seq<Record>, ys: seq<Record>, spec: Spec, done: set<int>): int {
    if xs == [] then 0
    else
      var k := Get(xs[0], spec.joinField);
      (if k.Some? && k.value in done then SumOf(ys, spec, k.value) else 0) + RightIn(xs[1..], ys, spec, done)
  }

  lemma {:induction false} NoneDone(xs: seq<Record>, ys: seq<Record>, spec: Spec)
    ensures CountIn(xs, ys, spec, {}) == LeftIn(xs, ys, spec, {}) == RightIn(xs, ys, spec, {}) == 0
  {
    if xs != [] { NoneDone(xs[1..], ys, spec); }
  }

  lemma Spread(a: int, b: int, c: int)
    ensures (a + b) * c == a * c + b * c
  {
  }

  lemma {:induction false} OneMoreKey(xs: seq<Record>, ys: seq<Record>, spec: Spec, done: set<int>, k: int)
    requires k !in done
    ensures CountIn(xs, ys, spec, done + {k}) == CountIn(xs, ys, spec, done) + CountOf(xs, spec, k) * CountOf(ys, spec, k)
    ensures LeftIn(xs, ys, spec, done + {k}) == LeftIn(xs, ys, spec, done) + SumOf(xs, spec, k) * CountOf(ys, spec, k)
    ensures RightIn(xs, ys, spec, done + {k}) == RightIn(xs, ys, spec, done) + CountOf(xs, spec, k) * SumOf(ys, spec, k)
  {
    if xs != [] {
      OneMoreKey(xs[1..], ys, spec, done, k);
      var c, s := CountOf(xs[1..], spec, k), SumOf(xs[1..], spec, k);
      var key := Get(xs[0], spec.joinField);
      if key == Some(k) {
        Spread(1, c, CountOf(ys, spec, k));
        Spread(Weight(xs[0], spec), s, CountOf(ys, spec, k));
        Spread(1, c, SumOf(ys, spec, k));
        assert CountOf(xs, spec, k) == 1 + c && SumOf(xs, spec, k) == Weight(xs[0], spec) + s;
      } else {
        assert CountOf(xs, spec, k) == c && SumOf(xs, spec, k) == s;
        assert key.Some? ==> (key.value in done + {k} <==> key.value in done);
      }
    }
  }

  lemma Twice(a: int, b: int)
    ensures 2 * a * b == a * b + b * a
  {
  }

  lemma Memberless(s: set<int>)
    requires forall k :: k !in s
    ensures s == {}
  {
    assert forall k | k in s :: k in {};
  }

  lemma Inhabited(s: set<int>)
    requires s != {}
    ensures exists k :: k in s
  {
    if !exists k :: k in s { Memberless(s); }
  }

  /** `keys` are the non-null join keys of `xs`. */
  ghost predicate AllKeys(xs: seq<Record>, spec: Spec, keys: set<int>) {
    forall k :: k in keys <==> CountOf(xs, spec, k) > 0
  }

  /** The computation of the view's one record: COUNT, and the sum, `None` for null. */
  method Compute(xs: seq<Record>, spec: Spec) returns (count: nat, data: Option<int>)
    ensures exists keys ::
      && AllKeys(xs, spec, keys)
      && count == CountIn(xs, xs, spec, keys)
      && data == if count == 0 then None else Some(LeftIn(xs, xs, spec, keys) + RightIn(xs, xs, spec, keys))
  {
    var stats := Collect(xs, spec);
    var joinCount, dataSum := 0, 0;
    var todo: set<int> := stats.Keys;
    ghost var done: set<int> := {};
    NoneDone(xs, xs, spec);
    while todo != {}
      invariant todo + done == stats.Keys && todo !! done
      invariant joinCount == CountIn(xs, xs, spec, done)
      invariant dataSum == LeftIn(xs, xs, spec, done) + RightIn(xs, xs, spec, done)
    {
      Inhabited(todo);
      var k :| k in todo;
      OneMoreKey(xs, xs, spec, done, k);
      var stat := stats[k];
      joinCount := joinCount + stat.count * stat.count;
      dataSum := dataSum + 2 * stat.sum * stat.count;
      Twice(stat.sum, stat.count);
      todo, done := todo - {k}, done + {k};
    }
    assert AllKeys(xs, spec, done) by { assert done == stats.Keys; }
    count := joinCount;
    data := if joinCount == 0 then None else Some(dataSum);
  }

  // --- The shortcut against the query ---

  /** A matched query joins two records when their keys are equal and not null. */
  predicate SameKey(spec: Spec, x: Record, y: Record) {
    Get(x, spec.joinField).Some? && Get(x, spec.joinField) == Get(y, spec.joinField)
  }

  lemma MatchedJoin(q: Query, rest: Rest, p: Pair)
    requires Match(q).Some?
    ensures HoldAll(q, rest, q.conditions, p) == SameKey(Match(q).value, p.0, p.1)
  {
    assert q.conditions[..0] == [];
  }

  lemma ColumnConcat(q: Query, t: string, f: string, a: seq<Pair>, b: seq<Pair>)
    requires |q.aliases| >= 2
    ensures Column(q, t, f, a + b) == Column(q, t, f, a) + Column(q, t, f, b)
  {
    if a == [] {
      assert a + b == b;
    } else {
      assert (a + b)[1..] == a[1..] + b;
      ColumnConcat(q, t, f, a[1..], b);
    }
  }

  lemma {:induction false} TotalConcat(a: seq<int>, b: seq<int>)
    ensures Total(a + b) == Total(a) + Total(b)
  {
    if a == [] {
      assert a + b == b;
    } else {
      assert (a + b)[1..] == a[1..] + b;
      TotalConcat(a[1..], b);
    }
  }

  /** The pairs of one left record. */
  lemma {:induction false} PairsOfCounted(q: Query, rest: Rest, x: Record, ys: seq<Record>)
    requires Match(q).Some?
    ensures var spec, ps := Match(q).value, PairsOf(q, rest, x, ys);
      var k := Get(x, spec.joinField);
      && |ps| == (if k.Some? then CountOf(ys, spec, k.value) else 0)
      && Total(Column(q, q.aliases[0], spec.sumField, ps))
         == (if k.Some? then Weight(x, spec) * CountOf(ys, spec, k.value) else 0)
      && Total(Column(q, q.aliases[1], spec.sumField, ps)) == (if k.Some? then SumOf(ys, spec, k.value) else 0)
  {
    if ys != [] {
      PairsOfCounted(q, rest, x, ys[1..]);
      MatchedJoin(q, rest, (x, ys[0]));
      var spec, rst := Match(q).value, PairsOf(q, rest, x, ys[1..]);
      if SameKey(spec, x, ys[0]) {
        OnePair(q, (x, ys[0]), rst);
        var k := Get(x, spec.joinField).value;
        var w, c := Weight(x, spec), CountOf(ys[1..], spec, k);
        assert w * (1 + c) == w + w * c;
      } else {
        assert PairsOf(q, rest, x, ys) == rst;
      }
    }
  }

  lemma OnePair(q: Query, p: Pair, ps: seq<Pair>)
    requires Match(q).Some?
    ensures var spec := Match(q).value;
      && Total(Column(q, q.aliases[0], spec.sumField, [p] + ps)) == Weight(p.0, spec) + Total(Column(q, q.aliases[0], spec.sumField, ps))
      && Total(Column(q, q.aliases[1], spec.sumField, [p] + ps)) == Weight(p.1, spec) + Total(Column(q, q.aliases[1], spec.sumField, ps))
  {
    var f := Match(q).value.sumField;
    forall i | 0 <= i < 2
      ensures Total(Column(q, q.aliases[i], f, [p] + ps))
              == Total(Column(q, q.aliases[i], f, [p])) + Total(Column(q, q.aliases[i], f, ps))
    {
      ColumnConcat(q, q.aliases[i], f, [p], ps);
      TotalConcat(Column(q, q.aliases[i], f, [p]), Column(q, q.aliases[i], f, ps));
    }
    SingleColumn(q, q.aliases[0], f, p);
    SingleColumn(q, q.aliases[1], f, p);
  }

  lemma SingleColumn(q: Query, t: string, f: string, p: Pair)
    requires |q.aliases| >= 2
    ensures var v := Cell(q, t, f, p); Total(Column(q, t, f, [p])) == if v.Some? then v.value else 0
  {
    assert [p][1..] == [];
    var v := Cell(q, t, f, p);
    if v.Some? {
      assert Column(q, t, f, [p]) == [v.value] && [v.value][1..] == [];
    }
  }

  /** All pairs, when `keys` holds every key. */
  lemma {:induction false} PairsCounted(q: Query, rest: Rest, xs: seq<Record>, ys: seq<Record>, keys: set<int>)
    requires Match(q).Some?
    requires AllKeys(ys, Match(q).value, keys)
    ensures var spec, ps := Match(q).value, Pairs(q, rest, xs, ys);
      && |ps| == CountIn(xs, ys, spec, keys)
      && Total(Column(q, q.aliases[0], spec.sumField, ps)) == LeftIn(xs, ys, spec, keys)
      && Total(Column(q, q.aliases[1], spec.sumField, ps)) == RightIn(xs, ys, spec, keys)
  {
    if xs != [] {
      PairsCounted(q, rest, xs[1..], ys, keys);
      PairsOfCounted(q, rest, xs[0], ys);
      var spec, a, b := Match(q).value, PairsOf(q, rest, xs[0], ys), Pairs(q, rest, xs[1..], ys);
      ColumnConcat(q, q.aliases[0], spec.sumField, a, b);
      ColumnConcat(q, q.aliases[1], spec.sumField, a, b);
      TotalConcat(Column(q, q.aliases[0], spec.sumField, a), Column(q, q.aliases[0], spec.sumField, b));
      TotalConcat(Column(q, q.aliases[1], spec.sumField, a), Column(q, q.aliases[1], spec.sumField, b));
      var k := Get(xs[0], spec.joinField);
      if k.Some? { NoCountNoSum(ys, spec, k.value); }
    }
  }

  lemma {:induction false} NoCountNoSum(ys: seq<Record>, spec: Spec, k: int)
    ensures CountOf(ys, spec, k) == 0 ==> SumOf(ys, spec, k) == 0
  {
    if ys != [] { NoCountNoSum(ys[1..], spec, k); }
  }

  lemma {:induction false} PairsOfMember(q: Query, rest: Rest, x: Record, ys: seq<Record>, p: Pair)
    requires |q.aliases| >= 2
    ensures p in PairsOf(q, rest, x, ys) <==> p.0 == x && p.1 in ys && HoldAll(q, rest, q.conditions, p)
  {
    if ys != [] { PairsOfMember(q, rest, x, ys[1..], p); }
  }

  lemma {:induction false} PairsMember(q: Query, rest: Rest, xs: seq<Record>, ys: seq<Record>, p: Pair)
    requires |q.aliases| >= 2
    ensures p in Pairs(q, rest, xs, ys) <==> p.0 in xs && p.1 in ys && HoldAll(q, rest, q.conditions, p)
  {
    if xs != [] {
      PairsMember(q, rest, xs[1..], ys, p);
      PairsOfMember(q, rest, xs[0], ys, p);
    }
  }

  lemma {:induction false} ColumnEmpty(q: Query, t: string, f: string, ps: seq<Pair>)
    requires |q.aliases| >= 2
    ensures Column(q, t, f, ps) == [] <==> forall p :: p in ps ==> Cell(q, t, f, p).None?
  {
    if ps != [] { ColumnEmpty(q, t, f, ps[1..]); }
  }

  /** Some record has a join key; some record has a join key and a value to sum. */
  ghost predicate HasKey(xs: seq<Record>, spec: Spec) {
    exists x :: x in xs && Get(x, spec.joinField).Some?
  }

  ghost predicate HasValue(xs: seq<Record>, spec: Spec) {
    exists x :: x in xs && Get(x, spec.joinField).Some? && Get(x, spec.sumField).Some?
  }

  /** COUNT counts every pair: the keys of joined records are not null. */
  lemma {:induction false} CountsEveryPair(q: Query, ps: seq<Pair>)
    requires Match(q).Some? && forall p :: p in ps ==> SameKey(Match(q).value, p.0, p.1)
    ensures |Column(q, q.items[0].table, q.items[0].field, ps)| == |ps|
  {
    if ps != [] {
      CountsEveryPair(q, ps[1..]);
      assert ps[0] in ps;
    }
  }

  /** The pairs of a matched query. */
  lemma JoinedPairs(q: Query, rest: Rest, xs: seq<Record>, p: Pair)
    requires Match(q).Some?
    ensures p in Pairs(q, rest, xs, xs) <==> p.0 in xs && p.1 in xs && SameKey(Match(q).value, p.0, p.1)
  {
    PairsMember(q, rest, xs, xs, p);
    MatchedJoin(q, rest, p);
  }

  lemma NoPairs(q: Query, rest: Rest, xs: seq<Record>)
    requires Match(q).Some?
    ensures Pairs(q, rest, xs, xs) == [] <==> !HasKey(xs, Match(q).value)
  {
    var spec, ps := Match(q).value, Pairs(q, rest, xs, xs);
    if HasKey(xs, spec) {
      var x :| x in xs && Get(x, spec.joinField).Some?;
      JoinedPairs(q, rest, xs, (x, x));
    }
    if ps != [] { JoinedPairs(q, rest, xs, ps[0]); }
  }

  lemma SumsEmpty(q: Query, rest: Rest, xs: seq<Record>, i: nat)
    requires Match(q).Some? && i < 2
    ensures Column(q, q.aliases[i], Match(q).value.sumField, Pairs(q, rest, xs, xs)) == [] <==> !HasValue(xs, Match(q).value)
  {
    var spec, ps := Match(q).value, Pairs(q, rest, xs, xs);
    ColumnEmpty(q, q.aliases[i], spec.sumField, ps);
    if HasValue(xs, spec) {
      var x :| x in xs && Get(x, spec.joinField).Some? && Get(x, spec.sumField).Some?;
      JoinedPairs(q, rest, xs, (x, x));
    } else {
      forall p | p in ps ensures Cell(q, q.aliases[i], spec.sumField, p).None? {
        JoinedPairs(q, rest, xs, p);
      }
    }
  }

  /** The sum that the shortcut stores: null without pairs, otherwise the values of both sides over all pairs. */
  ghost function StoredSum(q: Query, rest: Rest, xs: seq<Record>): Option<int>
    requires Match(q).Some?
  {
    var spec, ps := Match(q).value, Pairs(q, rest, xs, xs);
    if ps == [] then None
    else Some(Total(Column(q, q.aliases[0], spec.sumField, ps)) + Total(Column(q, q.aliases[1], spec.sumField, ps)))
  }

  /** What the shortcut writes is what the query means, if and only if some joined record has a value. */
  method Materialize(q: Query, rest: Rest, xs: seq<Record>) returns (r: Option<(int, Option<int>)>)
    ensures r.Some? <==> Match(q).Some?
    ensures r.Some? ==> var ps := Pairs(q, rest, xs, xs);
      && Some(r.value.0) == ItemValue(q, rest, q.items[0], ps) && r.value.1 == StoredSum(q, rest, xs)
      && (r.value.1 == ItemValue(q, rest, q.items[1], ps)
          <==> (HasKey(xs, Match(q).value) ==> HasValue(xs, Match(q).value)))
  {
    var spec := Match(q);
    if spec.None? {
      return None;
    }
    var count, data := Compute(xs, spec.value);
    r := Some((count, data));
    StoredIs(q, rest, xs, count, data);
    SumExact(q, rest, xs);
  }

  /** The shortcut's numbers, said of the joined pairs. */
  lemma StoredIs(q: Query, rest: Rest, xs: seq<Record>, count: nat, data: Option<int>)
    requires Match(q).Some?
    requires exists keys ::
      && AllKeys(xs, Match(q).value, keys)
      && count == CountIn(xs, xs, Match(q).value, keys)
      && data == if count == 0 then None else Some(LeftIn(xs, xs, Match(q).value, keys) + RightIn(xs, xs, Match(q).value, keys))
    ensures Some(count) == ItemValue(q, rest, q.items[0], Pairs(q, rest, xs, xs)) && data == StoredSum(q, rest, xs)
  {
    var keys :|
      && AllKeys(xs, Match(q).value, keys)
      && count == CountIn(xs, xs, Match(q).value, keys)
      && data == if count == 0 then None else Some(LeftIn(xs, xs, Match(q).value, keys) + RightIn(xs, xs, Match(q).value, keys));
    PairsCounted(q, rest, xs, xs, keys);
    Counts(q, rest, xs);
  }

  lemma SumExact(q: Query, rest: Rest, xs: seq<Record>)
    requires Match(q).Some?
    ensures StoredSum(q, rest, xs) == ItemValue(q, rest, q.items[1], Pairs(q, rest, xs, xs))
            <==> (HasKey(xs, Match(q).value) ==> HasValue(xs, Match(q).value))
  {
    NoPairs(q, rest, xs);
    Data(q, rest, xs);
  }

  lemma Counts(q: Query, rest: Rest, xs: seq<Record>)
    requires Match(q).Some?
    ensures ItemValue(q, rest, q.items[0], Pairs(q, rest, xs, xs)) == Some(|Pairs(q, rest, xs, xs)|)
  {
    var ps := Pairs(q, rest, xs, xs);
    forall p | p in ps ensures SameKey(Match(q).value, p.0, p.1) { JoinedPairs(q, rest, xs, p); }
    CountsEveryPair(q, ps);
  }

  /** The second item of a matched query is null exactly when no joined record has a value. */
  lemma Data(q: Query, rest: Rest, xs: seq<Record>)
    requires Match(q).Some?
    ensures var spec, ps := Match(q).value, Pairs(q, rest, xs, xs);
      ItemValue(q, rest, q.items[1], ps) ==
        if !HasValue(xs, spec) then None
        else Some(Total(Column(q, q.aliases[0], spec.sumField, ps)) + Total(Column(q, q.aliases[1], spec.sumField, ps)))
  {
    SumsEmpty(q, rest, xs, 0);
    SumsEmpty(q, rest, xs, 1);
    var s, t := q.items[1].l, q.items[1].r;
    assert (s.table == q.aliases[0] && t.table == q.aliases[1]) || (s.table == q.aliases[1] && t.table == q.aliases[0]);
  }

  /** With keys but no value the query's sum is null, and the shortcut writes 0. */
  lemma SumsDiffer(q: Query, rest: Rest, xs: seq<Record>)
    requires Match(q).Some? && HasKey(xs, Match(q).value) && !HasValue(xs, Match(q).value)
    ensures ItemValue(q, rest, q.items[1], Pairs(q, rest, xs, xs)) == None && StoredSum(q, rest, xs) == Some(0)
  {
    Data(q, rest, xs);
    NoPairs(q, rest, xs);
    SumsEmpty(q, rest, xs, 0);
    SumsEmpty(q, rest, xs, 1);
  }

  /** The smallest such table, for every accepted query over two fields. */
  lemma NoValueDiffers(q: Query, rest: Rest)
    requires Match(q).Some? && Match(q).value.joinField != Match(q).value.sumField
    ensures var xs := [map[Match(q).value.joinField := Some(1)]];
      ItemValue(q, rest, q.items[1], Pairs(q, rest, xs, xs)) == None && StoredSum(q, rest, xs) == Some(0)
  {
    var x: Record := map[Match(q).value.joinField := Some(1)];
    assert x in [x] && Get(x, Match(q).value.joinField).Some?;
    SumsDiffer(q, rest, [x]);
  }
}
