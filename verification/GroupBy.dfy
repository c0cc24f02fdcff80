/**
  The GROUP BY operator: src/observer/sql/operator/group_by_physical_operator.cpp.
 */
module GroupBy {
  import opened Options
  import opened Expressions

  datatype AggKind = Count | Sum | Avg | Max | Min
  type FieldRef = (string, string)

  /** `COUNT(*)` has no field. */
  datatype AggField = AggField(kind: AggKind, field: Option<FieldRef>)

  /** What is summed up per group and aggregate; `None` stands for the initial lowest and highest number. */
  datatype Acc = Acc(sum: int, max: Option<int>, min: Option<int>, count: nat)

  datatype Group = Group(values: seq<Value>, aggregates: seq<Value>, rowCount: nat)

  /** Look a field up with its table name, then by field name alone. */
  function Cell(t: Tuple, f: FieldRef): Option<Value> {
    var v := FindCell(t, f.0, f.1);
    if v.Some? then v else FindCell(t, "", f.1)
  }

  function GroupValues(t: Tuple, fields: seq<FieldRef>): seq<Value> {
    if fields == [] then []
    else
      var n := |fields| - 1;
      var v := Cell(t, fields[n]);
      GroupValues(t, fields[..n]) + [if v.Some? then v.value else Integer(0)]
  }

  const SEPARATOR: char := 1 as char

  /** The text of the group values, each closed by the character 1. */
  function GroupKey(text: Value -> string, t: Tuple, fields: seq<FieldRef>): string {
    if fields == [] then ""
    else
      var n := |fields| - 1;
      var v := Cell(t, fields[n]);
      GroupKey(text, t, fields[..n]) + (if v.Some? then text(v.value) else "0") + [SEPARATOR]
  }

  function Start(): Acc {
    Acc(0, None, None, 0)
  }

  function Add(acc: Acc, v: int): Acc {
    Acc(acc.sum + v,
        if acc.max.None? || v > acc.max.value then Some(v) else acc.max,
        if acc.min.None? || v < acc.min.value then Some(v) else acc.min,
        acc.count + 1)
  }

  /** Integer columns: nulls and missing cells are skipped. */
  function Step(af: AggField, acc: Acc, t: Tuple): Acc {
    if af.kind.Count? && af.field.None? then acc.(count := acc.count + 1)
    else if af.field.None? then acc
    else
      var v := Cell(t, af.field.value);
      if v.Some? && v.value.Integer? then Add(acc, v.value.i) else acc
  }

  function Result(af: AggField, acc: Acc): Value {
    match af.kind
    case Count => Integer(acc.count)
    case Sum => if acc.count == 0 then Null else Integer(acc.sum)
    case Avg => if acc.count == 0 then Null else Float(acc.sum as real / acc.count as real)
    case Max => if acc.count == 0 || acc.max.None? then Null else Integer(acc.max.value)
    case Min => if acc.count == 0 || acc.min.None? then Null else Integer(acc.min.value)
  }

  // --- What the operator should deliver ---

  /** The distinct keys in order of first occurrence. */
  function Keys(ks: seq<string>): seq<string> {
    if ks == [] then []
    else
      var n := |ks| - 1;
      var before := Keys(ks[..n]);
      if ks[n] in before then before else before + [ks[n]]
  }

  /** The rows whose key is `k`, in order. */
  function Members(rows: seq<Tuple>, ks: seq<string>, k: string): (r: seq<Tuple>)
    requires |rows| == |ks|
    ensures forall t :: t in r ==> t in rows
  {
    if rows == [] then []
    else
      var n := |rows| - 1;
      Members(rows[..n], ks[..n], k) + if ks[n] == k then [rows[n]] else []
  }

  function KeysOf(text: Value -> string, rows: seq<Tuple>, fields: seq<FieldRef>): (ks: seq<string>)
    ensures |ks| == |rows| && forall i :: 0 <= i < |rows| ==> ks[i] == GroupKey(text, rows[i], fields)
  {
    seq(|rows|, i requires 0 <= i < |rows| => GroupKey(text, rows[i], fields))
  }

  function AccRows(af: AggField, rows: seq<Tuple>): Acc {
    if rows == [] then Start() else Step(af, AccRows(af, rows[..|rows| - 1]), rows[|rows| - 1])
  }

  function AccAll(afs: seq<AggField>, rows: seq<Tuple>): (r: seq<Acc>)
    ensures |r| == |afs| && forall a :: 0 <= a < |afs| ==> r[a] == AccRows(afs[a], rows)
  {
    seq(|afs|, a requires 0 <= a < |afs| => AccRows(afs[a], rows))
  }

  function Results(afs: seq<AggField>, rows: seq<Tuple>): (r: seq<Value>)
    ensures |r| == |afs| && forall a :: 0 <= a < |afs| ==> r[a] == Result(afs[a], AccRows(afs[a], rows))
  {
    seq(|afs|, a requires 0 <= a < |afs| => Result(afs[a], AccRows(afs[a], rows)))
  }

  /** The group of key `k`: the values of its first row, its aggregates and its size. */
  function GroupOf(rows: seq<Tuple>, ks: seq<string>, fields: seq<FieldRef>, afs: seq<AggField>, k: string): Group
    requires |rows| == |ks|
  {
    var ms := Members(rows, ks, k);
    Group(if ms == [] then [] else GroupValues(ms[0], fields), Results(afs, ms), |ms|)
  }

  // What the loop over the rows keeps, before the aggregates are written.

  /** The group map sends each key to its place in order of first occurrence. */
  ghost predicate Indexed(keys: seq<string>, index: map<string, nat>) {
    && (forall k :: k in index <==> k in keys)
    && (forall k :: k in index ==> index[k] < |keys| && keys[index[k]] == k)
  }

  ghost predicate Counted(rows: seq<Tuple>, ks: seq<string>, fields: seq<FieldRef>, keys: seq<string>, gs: seq<Group>)
    requires |rows| == |ks|
  {
    |gs| == |keys| && forall j :: 0 <= j < |keys| ==> gs[j] == GroupOf(rows, ks, fields, [], keys[j])
  }

  ghost predicate Summed(rows: seq<Tuple>, ks: seq<string>, afs: seq<AggField>, keys: seq<string>, accs: seq<seq<Acc>>)
    requires |rows| == |ks|
  {
    |accs| == |keys| && forall j :: 0 <= j < |keys| ==> accs[j] == AccAll(afs, Members(rows, ks, keys[j]))
  }

  // --- Aggregates mean what SQL says ---

  /** The non-null values an aggregate over a field sees. */
  function Inputs(f: FieldRef, rows: seq<Tuple>): seq<int> {
    if rows == [] then []
    else
      var n := |rows| - 1;
      var v := Cell(rows[n], f);
      Inputs(f, rows[..n]) + if v.Some? && v.value.Integer? then [v.value.i] else []
  }

  function Total(vs: seq<int>): int {
    if vs == [] then 0 else Total(vs[..|vs| - 1]) + vs[|vs| - 1]
  }

  predicate IsMax(m: int, vs: seq<int>) {
    m in vs && forall v :: v in vs ==> v <= m
  }

  predicate IsMin(m: int, vs: seq<int>) {
    m in vs && forall v :: v in vs ==> m <= v
  }

  /** The accumulator has seen exactly the values `vs`. */
  ghost predicate Sees(acc: Acc, vs: seq<int>) {
    && acc.count == |vs| && acc.sum == Total(vs)
    && (vs == [] <==> acc.max.None?) && (vs == [] <==> acc.min.None?)
    && (vs != [] ==> IsMax(acc.max.value, vs) && IsMin(acc.min.value, vs))
  }

  lemma AddSees(acc: Acc, vs: seq<int>, v: int)
    requires Sees(acc, vs)
    ensures Sees(Add(acc, v), vs + [v])
  {
    assert (vs + [v])[..|vs|] == vs;
  }

  lemma {:induction false} AccMeans(af: AggField, rows: seq<Tuple>)
    requires af.field.Some?
    ensures Sees(AccRows(af, rows), Inputs(af.field.value, rows))
  {
    if rows != [] {
      var n := |rows| - 1;
      AccMeans(af, rows[..n]);
      var v, before := Cell(rows[n], af.field.value), Inputs(af.field.value, rows[..n]);
      if v.Some? && v.value.Integer? {
        AddSees(AccRows(af, rows[..n]), before, v.value.i);
      } else {
        assert Inputs(af.field.value, rows) == before;
      }
    }
  }

  /** COUNT, SUM, AVG, MAX and MIN of a group are those of its non-null values. */
  lemma AggregateMeans(kind: AggKind, f: FieldRef, rows: seq<Tuple>)
    ensures var vs, r := Inputs(f, rows), Result(AggField(kind, Some(f)), AccRows(AggField(kind, Some(f)), rows));
      match kind
      case Count => r == Integer(|vs|)
      case Sum => r == if vs == [] then Null else Integer(Total(vs))
      case Avg => r == if vs == [] then Null else Float(Total(vs) as real / |vs| as real)
      case Max => if vs == [] then r == Null else r.Integer? && IsMax(r.i, vs)
      case Min => if vs == [] then r == Null else r.Integer? && IsMin(r.i, vs)
  {
    AccMeans(AggField(kind, Some(f)), rows);
  }

  lemma {:induction false} CountStarMeans(rows: seq<Tuple>)
    ensures Result(AggField(Count, None), AccRows(AggField(Count, None), rows)) == Integer(|rows|)
  {
    if rows != [] { CountStarMeans(rows[..|rows| - 1]); }
  }

  // --- The groups partition the input ---

  lemma {:induction false} KeysDistinct(ks: seq<string>)
    ensures forall k :: k in Keys(ks) <==> k in ks
    ensures forall i, j :: 0 <= i < j < |Keys(ks)| ==> Keys(ks)[i] != Keys(ks)[j]
  {
    if ks != [] {
      KeysDistinct(ks[..|ks| - 1]);
      assert ks == ks[..|ks| - 1] + [ks[|ks| - 1]];
    }
  }

  /** Where a key is found first. */
  ghost predicate FirstAt(ks: seq<string>, k: string, i: nat) {
    i < |ks| && ks[i] == k && forall j :: 0 <= j < i ==> ks[j] != k
  }

  /** The keys are in order of their first rows. */
  lemma {:induction false} KeysInOrder(ks: seq<string>, a: nat, b: nat, i: nat, j: nat)
    requires a < b < |Keys(ks)| && FirstAt(ks, Keys(ks)[a], i) && FirstAt(ks, Keys(ks)[b], j)
    ensures i < j
  {
    var n := |ks| - 1;
    var before := Keys(ks[..n]);
    KeysDistinct(ks[..n]);
    if b < |before| {
      assert before[a] in ks[..n] && before[b] in ks[..n];
      assert FirstAt(ks[..n], before[a], i) && FirstAt(ks[..n], before[b], j);
      KeysInOrder(ks[..n], a, b, i, j);
    } else {
      assert ks[n] !in ks[..n] && j == n by { assert forall k :: 0 <= k < n ==> ks[..n][k] == ks[k]; }
      assert before[a] in ks[..n];
    }
  }

  /** The members of a group are the rows with its key, each as often as it is there, in order. */
  lemma {:induction false} MembersPick(rows: seq<Tuple>, ks: seq<string>, k: string) returns (at: seq<nat>)
    requires |rows| == |ks|
    ensures |at| == |Members(rows, ks, k)| && forall i :: 0 <= i < |at| ==> at[i] < |rows| && Members(rows, ks, k)[i] == rows[at[i]]
    ensures forall i, j :: 0 <= i < j < |at| ==> at[i] < at[j]
    ensures forall i :: 0 <= i < |rows| ==> (ks[i] == k <==> i in at)
  {
    if rows == [] {
      at := [];
    } else {
      var n := |rows| - 1;
      at := MembersPick(rows[..n], ks[..n], k);
      if ks[n] == k { at := at + [n]; }
    }
  }

  /** A group has the values of its first row, the results over its rows, and their number. */
  lemma GroupIs(rows: seq<Tuple>, ks: seq<string>, fields: seq<FieldRef>, afs: seq<AggField>, k: string, i: nat)
    requires |rows| == |ks| && FirstAt(ks, k, i)
    ensures var g := GroupOf(rows, ks, fields, afs, k);
      && g.values == GroupValues(rows[i], fields) && g.rowCount == |Members(rows, ks, k)|
      && |g.aggregates| == |afs|
      && forall a :: 0 <= a < |afs| ==> g.aggregates[a] == Result(afs[a], AccRows(afs[a], Members(rows, ks, k)))
  {
    var at := MembersPick(rows, ks, k);
    assert i in at;
    assert at[0] == i by {
      var m :| 0 <= m < |at| && at[m] == i;
      assert at[0] in at && ks[at[0]] == k;
    }
  }

  function Sizes(rows: seq<Tuple>, ks: seq<string>, keys: seq<string>): nat
    requires |rows| == |ks|
  {
    if keys == [] then 0 else |Members(rows, ks, keys[0])| + Sizes(rows, ks, keys[1..])
  }

  lemma {:induction false} SizesConcat(rows: seq<Tuple>, ks: seq<string>, a: seq<string>, b: seq<string>)
    requires |rows| == |ks|
    ensures Sizes(rows, ks, a + b) == Sizes(rows, ks, a) + Sizes(rows, ks, b)
  {
    if a == [] {
      assert a + b == b;
    } else {
      assert (a + b)[1..] == a[1..] + b;
      SizesConcat(rows, ks, a[1..], b);
    }
  }

  lemma {:induction false} SizesGrow(rows: seq<Tuple>, ks: seq<string>, keys: seq<string>)
    requires |rows| == |ks| > 0
    requires forall i, j :: 0 <= i < j < |keys| ==> keys[i] != keys[j]
    ensures var n := |ks| - 1;
            Sizes(rows, ks, keys) == Sizes(rows[..n], ks[..n], keys) + if ks[n] in keys then 1 else 0
  {
    if keys != [] {
      SizesGrow(rows, ks, keys[1..]);
      assert keys == [keys[0]] + keys[1..];
    }
  }

  lemma {:induction false} NoMembers(rows: seq<Tuple>, ks: seq<string>, k: string)
    requires |rows| == |ks| && k !in ks
    ensures Members(rows, ks, k) == []
  {
    if rows != [] { NoMembers(rows[..|rows| - 1], ks[..|ks| - 1], k); }
  }

  /** Every row is in exactly one group: the group sizes add up to the number of rows. */
  lemma {:induction false} SizesAddUp(rows: seq<Tuple>, ks: seq<string>)
    requires |rows| == |ks|
    ensures Sizes(rows, ks, Keys(ks)) == |rows|
  {
    if rows != [] {
      var n := |rows| - 1;
      var before := Keys(ks[..n]);
      SizesAddUp(rows[..n], ks[..n]);
      KeysDistinct(ks[..n]);
      KeysDistinct(ks);
      SizesGrow(rows, ks, Keys(ks));
      if ks[n] !in before {
        SizesConcat(rows[..n], ks[..n], before, [ks[n]]);
        NoMembers(rows[..n], ks[..n], ks[n]);
        assert [ks[n]][1..] == [];
      }
    }
  }

  // --- The operator ---

  datatype RC = Success | Eof

  lemma {:induction false} MembersKeyed(rows: seq<Tuple>, ks: seq<string>, k: string)
    requires |rows| == |ks|
    ensures k in ks ==> Members(rows, ks, k) != []
  {
    if rows != [] {
      var n := |rows| - 1;
      MembersKeyed(rows[..n], ks[..n], k);
      assert ks == ks[..n] + [ks[n]];
    }
  }

  /** One more row: the group of its key gains it, the others stay. */
  lemma MembersSnoc(rows: seq<Tuple>, ks: seq<string>, t: Tuple, key: string, k: string)
    requires |rows| == |ks|
    ensures Members(rows + [t], ks + [key], k) == Members(rows, ks, k) + if key == k then [t] else []
  {
    assert (rows + [t])[..|rows|] == rows && (ks + [key])[..|ks|] == ks;
  }

  lemma GroupSnoc(rows: seq<Tuple>, ks: seq<string>, fields: seq<FieldRef>, t: Tuple, key: string, k: string)
    requires |rows| == |ks|
    ensures var g, h := GroupOf(rows, ks, fields, [], k), GroupOf(rows + [t], ks + [key], fields, [], k);
      && (key != k ==> h == g)
      && (key == k && k in ks ==> h == g.(rowCount := g.rowCount + 1))
      && (key == k && k !in ks ==> h == Group(GroupValues(t, fields), [], 1))
  {
    MembersSnoc(rows, ks, t, key, k);
    assert Members(rows, ks, k) + [] == Members(rows, ks, k);
    if k in ks { MembersKeyed(rows, ks, k); } else { NoMembers(rows, ks, k); }
  }

  lemma AccSnoc(rows: seq<Tuple>, ks: seq<string>, afs: seq<AggField>, t: Tuple, key: string, k: string)
    requires |rows| == |ks|
    ensures AccAll(afs, Members(rows + [t], ks + [key], k))
            == AccAll(afs, if key == k then Members(rows, ks, k) + [t] else Members(rows, ks, k))
  {
    MembersSnoc(rows, ks, t, key, k);
    assert Members(rows, ks, k) + [] == Members(rows, ks, k);
  }

  /** The loops over the group-by fields of one row. */
  method RowKey(text: Value -> string, t: Tuple, fields: seq<FieldRef>) returns (key: string, values: seq<Value>)
    ensures key == GroupKey(text, t, fields) && values == GroupValues(t, fields)
  {
    key, values := "", [];
    for i := 0 to |fields|
      invariant key == GroupKey(text, t, fields[..i]) && values == GroupValues(t, fields[..i])
    {
      assert fields[..i + 1][..i] == fields[..i];
      var v := Cell(t, fields[i]);
      if v.Some? {
        values := values + [v.value];
        key := key + text(v.value) + [SEPARATOR];
      } else {
        values := values + [Integer(0)];
        key := key + "0" + [SEPARATOR];
      }
    }
    assert fields[..|fields|] == fields;
  }

  method Accumulate(afs: seq<AggField>, acc: seq<Acc>, ghost before: seq<Tuple>, t: Tuple) returns (r: seq<Acc>)
    requires acc == AccAll(afs, before)
    ensures r == AccAll(afs, before + [t])
  {
    r := [];
    for a := 0 to |afs|
      invariant |r| == a && forall b :: 0 <= b < a ==> r[b] == Step(afs[b], acc[b], t)
    {
      r := r + [Step(afs[a], acc[a], t)];
    }
    assert (before + [t])[..|before|] == before;
  }

  lemma KeysSnoc(ks: seq<string>, key: string)
    ensures Keys(ks + [key]) == if key in ks then Keys(ks) else Keys(ks) + [key]
  {
    assert (ks + [key])[..|ks|] == ks;
    KeysDistinct(ks);
  }

  lemma CountedOld(rows: seq<Tuple>, ks: seq<string>, fields: seq<FieldRef>, keys: seq<string>, gs: seq<Group>,
                   t: Tuple, i: nat)
    requires |rows| == |ks| && Counted(rows, ks, fields, keys, gs) && i < |keys| && keys[i] in ks
    requires forall a, b :: 0 <= a < b < |keys| ==> keys[a] != keys[b]
    ensures Counted(rows + [t], ks + [keys[i]], fields, keys, gs[i := gs[i].(rowCount := gs[i].rowCount + 1)])
  {
    var grown := gs[i].(rowCount := gs[i].rowCount + 1);
    GroupSnoc(rows, ks, fields, t, keys[i], keys[i]);
    forall j | 0 <= j < |keys| && j != i
      ensures gs[j] == GroupOf(rows + [t], ks + [keys[i]], fields, [], keys[j])
    {
      assert keys[i] != keys[j];
      GroupSnoc(rows, ks, fields, t, keys[i], keys[j]);
    }
    assert gs[i := grown][i] == grown && forall j :: 0 <= j < |keys| && j != i ==> gs[i := grown][j] == gs[j];
  }

  lemma CountedNew(rows: seq<Tuple>, ks: seq<string>, fields: seq<FieldRef>, keys: seq<string>, gs: seq<Group>,
                   t: Tuple, key: string)
    requires |rows| == |ks| && Counted(rows, ks, fields, keys, gs) && key !in ks && key !in keys
    ensures Counted(rows + [t], ks + [key], fields, keys + [key], gs + [Group(GroupValues(t, fields), [], 1)])
  {
    forall j | 0 <= j < |keys| + 1
      ensures (gs + [Group(GroupValues(t, fields), [], 1)])[j]
              == GroupOf(rows + [t], ks + [key], fields, [], (keys + [key])[j])
    {
      GroupSnoc(rows, ks, fields, t, key, (keys + [key])[j]);
    }
  }

  lemma SummedOld(rows: seq<Tuple>, ks: seq<string>, afs: seq<AggField>, keys: seq<string>, accs: seq<seq<Acc>>,
                  t: Tuple, i: nat, acc: seq<Acc>)
    requires |rows| == |ks| && Summed(rows, ks, afs, keys, accs) && i < |keys|
    requires forall a, b :: 0 <= a < b < |keys| ==> keys[a] != keys[b]
    requires acc == AccAll(afs, Members(rows, ks, keys[i]) + [t])
    ensures Summed(rows + [t], ks + [keys[i]], afs, keys, accs[i := acc])
  {
    forall j | 0 <= j < |keys|
      ensures accs[i := acc][j] == AccAll(afs, Members(rows + [t], ks + [keys[i]], keys[j]))
    {
      AccSnoc(rows, ks, afs, t, keys[i], keys[j]);
    }
  }

  lemma SummedNew(rows: seq<Tuple>, ks: seq<string>, afs: seq<AggField>, keys: seq<string>, accs: seq<seq<Acc>>,
                  t: Tuple, key: string, acc: seq<Acc>)
    requires |rows| == |ks| && Summed(rows, ks, afs, keys, accs) && key !in ks && key !in keys
    requires acc == AccAll(afs, [t])
    ensures Summed(rows + [t], ks + [key], afs, keys + [key], accs + [acc])
  {
    NoMembers(rows, ks, key);
    forall j | 0 <= j < |keys| + 1
      ensures (accs + [acc])[j] == AccAll(afs, Members(rows + [t], ks + [key], (keys + [key])[j]))
    {
      AccSnoc(rows, ks, afs, t, key, (keys + [key])[j]);
      assert [] + [t] == [t];
    }
  }

  lemma KeysOfSnoc(text: Value -> string, rows: seq<Tuple>, fields: seq<FieldRef>, t: Tuple)
    ensures KeysOf(text, rows + [t], fields) == KeysOf(text, rows, fields) + [GroupKey(text, t, fields)]
  {
  }

  /** `group_map`, `groups_` and `accs`. */
  datatype Table = Table(index: map<string, nat>, gs: seq<Group>, accs: seq<seq<Acc>>)

  /** The table after the rows `rows` with keys `ks`. */
  ghost predicate Grouped(rows: seq<Tuple>, ks: seq<string>, fields: seq<FieldRef>, afs: seq<AggField>, tab: Table)
    requires |rows| == |ks|
  {
    && Indexed(Keys(ks), tab.index)
    && Counted(rows, ks, fields, Keys(ks), tab.gs)
    && Summed(rows, ks, afs, Keys(ks), tab.accs)
  }

  method AddNew(fields: seq<FieldRef>, afs: seq<AggField>, tab: Table, key: string, values: seq<Value>, row: Tuple,
                ghost rows: seq<Tuple>, ghost ks: seq<string>) returns (r: Table)
    requires |rows| == |ks| && Grouped(rows, ks, fields, afs, tab) && key !in tab.index && values == GroupValues(row, fields)
    ensures Grouped(rows + [row], ks + [key], fields, afs, r)
  {
    KeysDistinct(ks);
    KeysSnoc(ks, key);
    var acc := Accumulate(afs, seq(|afs|, _ => Start()), [], row);
    assert [] + [row] == [row];
    CountedNew(rows, ks, fields, Keys(ks), tab.gs, row, key);
    SummedNew(rows, ks, afs, Keys(ks), tab.accs, row, key, acc);
    r := Table(tab.index[key := |tab.gs|], tab.gs + [Group(values, [], 1)], tab.accs + [acc]);
    assert Indexed(Keys(ks) + [key], r.index);
  }

  lemma FoundAt(keys: seq<string>, index: map<string, nat>, ks: seq<string>, key: string)
    requires Indexed(keys, index) && keys == Keys(ks) && key in index
    ensures index[key] < |keys| && keys[index[key]] == key && key in ks && Keys(ks + [key]) == keys
  {
    KeysDistinct(ks);
    KeysSnoc(ks, key);
  }

  lemma GroupedOld(fields: seq<FieldRef>, afs: seq<AggField>, tab: Table, key: string, row: Tuple, acc: seq<Acc>,
                   rows: seq<Tuple>, ks: seq<string>, keys: seq<string>)
    requires |rows| == |ks| && Grouped(rows, ks, fields, afs, tab) && key in tab.index && keys == Keys(ks)
    requires acc == AccAll(afs, Members(rows, ks, key) + [row])
    ensures var gi := tab.index[key];
      && gi < |tab.gs| == |tab.accs| == |keys|
      && Counted(rows + [row], ks + [key], fields, keys, tab.gs[gi := tab.gs[gi].(rowCount := tab.gs[gi].rowCount + 1)])
      && Summed(rows + [row], ks + [key], afs, keys, tab.accs[gi := acc])
  {
    var gi := tab.index[key];
    FoundAt(keys, tab.index, ks, key);
    KeysDistinct(ks);
    CountedOld(rows, ks, fields, keys, tab.gs, row, gi);
    SummedOld(rows, ks, afs, keys, tab.accs, row, gi, acc);
  }

  method AddOld(fields: seq<FieldRef>, afs: seq<AggField>, tab: Table, key: string, row: Tuple,
                ghost rows: seq<Tuple>, ghost ks: seq<string>) returns (r: Table)
    requires |rows| == |ks| && Grouped(rows, ks, fields, afs, tab) && key in tab.index
    ensures Grouped(rows + [row], ks + [key], fields, afs, r)
  {
    var gi := tab.index[key];
    var acc := Accumulate(afs, tab.accs[gi], Members(rows, ks, key), row);
    GroupedOld(fields, afs, tab, key, row, acc, rows, ks, Keys(ks));
    FoundAt(Keys(ks), tab.index, ks, key);
    r := Table(tab.index, tab.gs[gi := tab.gs[gi].(rowCount := tab.gs[gi].rowCount + 1)], tab.accs[gi := acc]);
  }

  /** Group all rows of the child. */
  method GroupRows(text: Value -> string, rows: seq<Tuple>, fields: seq<FieldRef>, afs: seq<AggField>)
    returns (gs: seq<Group>, accs: seq<seq<Acc>>)
    ensures var ks := KeysOf(text, rows, fields);
            Counted(rows, ks, fields, Keys(ks), gs) && Summed(rows, ks, afs, Keys(ks), accs)
  {
    var tab := Table(map[], [], []);
    ghost var ks: seq<string> := [];
    for i := 0 to |rows|
      invariant ks == KeysOf(text, rows[..i], fields)
      invariant Grouped(rows[..i], ks, fields, afs, tab)
    {
      assert rows[..i + 1] == rows[..i] + [rows[i]];
      KeysOfSnoc(text, rows[..i], fields, rows[i]);
      var key, values := RowKey(text, rows[i], fields);
      if key !in tab.index {
        tab := AddNew(fields, afs, tab, key, values, rows[i], rows[..i], ks);
      } else {
        tab := AddOld(fields, afs, tab, key, rows[i], rows[..i], ks);
      }
      ks := ks + [key];
    }
    assert rows[..|rows|] == rows;
    gs, accs := tab.gs, tab.accs;
  }

  /** The finished groups, in order of first occurrence of their keys. */
  function Groups(text: Value -> string, rows: seq<Tuple>, fields: seq<FieldRef>, afs: seq<AggField>): (r: seq<Group>)
    ensures var ks := KeysOf(text, rows, fields);
            |r| == |Keys(ks)| && forall j :: 0 <= j < |r| ==> r[j] == GroupOf(rows, ks, fields, afs, Keys(ks)[j])
  {
    var ks := KeysOf(text, rows, fields);
    seq(|Keys(ks)|, j requires 0 <= j < |Keys(ks)| => GroupOf(rows, ks, fields, afs, Keys(ks)[j]))
  }

  function Passing(having: Group -> bool, gs: seq<Group>): seq<Group> {
    if gs == [] then []
    else Passing(having, gs[..|gs| - 1]) + if having(gs[|gs| - 1]) then [gs[|gs| - 1]] else []
  }

  /** `r` is what is left of `gs` when those that HAVING rejects are taken out: at places `at`, in order. */
  ghost predicate Picks(having: Group -> bool, gs: seq<Group>, r: seq<Group>, at: seq<nat>) {
    && |r| == |at|
    && (forall i :: 0 <= i < |r| ==> at[i] < |gs| && r[i] == gs[at[i]])
    && (forall i, j :: 0 <= i < j < |at| ==> at[i] < at[j])
    && (forall k :: 0 <= k < |gs| ==> (having(gs[k]) <==> k in at))
  }

  /** HAVING keeps exactly the groups that it accepts, each as often as it is there, in order. */
  lemma {:induction false} PassingPicks(having: Group -> bool, gs: seq<Group>) returns (at: seq<nat>)
    ensures Picks(having, gs, Passing(having, gs), at)
    ensures forall g :: g in Passing(having, gs) <==> g in gs && having(g)
  {
    if gs == [] {
      at := [];
    } else {
      var n := |gs| - 1;
      at := PassingPicks(having, gs[..n]);
      assert gs == gs[..n] + [gs[n]];
      assert forall k :: 0 <= k < n ==> gs[..n][k] == gs[k];
      if having(gs[n]) { at := at + [n]; }
    }
  }

  /** The results of all aggregates of one group. */
  method Finish(afs: seq<AggField>, acc: seq<Acc>, ghost members: seq<Tuple>) returns (values: seq<Value>)
    requires acc == AccAll(afs, members)
    ensures values == Results(afs, members)
  {
    values := [];
    for a := 0 to |afs|
      invariant |values| == a && forall b :: 0 <= b < a ==> values[b] == Result(afs[b], acc[b])
    {
      values := values + [Result(afs[a], acc[a])];
    }
  }

  /** Drop the groups that HAVING rejects. */
  method FilterHaving(having: Group -> bool, gs: seq<Group>) returns (r: seq<Group>)
    ensures r == Passing(having, gs)
  {
    r := [];
    for j := 0 to |gs|
      invariant r == Passing(having, gs[..j])
    {
      assert gs[..j + 1][..j] == gs[..j];
      if having(gs[j]) {
        r := r + [gs[j]];
      }
    }
    assert gs[..|gs|] == gs;
  }

  /** Group, finish the aggregates, and drop the groups that HAVING rejects. */
  method Compute(text: Value -> string, rows: seq<Tuple>, fields: seq<FieldRef>, afs: seq<AggField>, having: Group -> bool)
    returns (result: seq<Group>)
    ensures result == Passing(having, Groups(text, rows, fields, afs))
    ensures forall g :: g in result <==> g in Groups(text, rows, fields, afs) && having(g)
    ensures exists at :: Picks(having, Groups(text, rows, fields, afs), result, at)
  {
    var gs, accs := GroupRows(text, rows, fields, afs);
    ghost var ks, want := KeysOf(text, rows, fields), Groups(text, rows, fields, afs);
    var finished: seq<Group> := [];
    for j := 0 to |gs|
      invariant |finished| == j && forall i :: 0 <= i < j ==> finished[i] == want[i]
    {
      ghost var k := Keys(ks)[j];
      var values := Finish(afs, accs[j], Members(rows, ks, k));
      assert want[j] == GroupOf(rows, ks, fields, [], k).(aggregates := values);
      finished := finished + [gs[j].(aggregates := values)];
    }
    assert finished == want;
    result := FilterHaving(having, finished);
    ghost var at := PassingPicks(having, want);
  }

  /** The operator: groups are computed by the first call, later calls step through them. */
  class Operator {
    const text: Value -> string
    const rows: seq<Tuple>
    const fields: seq<FieldRef>
    const afs: seq<AggField>
    const having: Group -> bool
    var computed: bool
    var groups: seq<Group>
    var current: int
    var cells: seq<Value>

    ghost function Output(): seq<Group> {
      Passing(having, Groups(text, rows, fields, afs))
    }

    ghost predicate Valid()
      reads this
    {
      current >= -1 && (computed ==> groups == Output())
    }

    constructor (text: Value -> string, rows: seq<Tuple>, fields: seq<FieldRef>, afs: seq<AggField>, having: Group -> bool)
      ensures Valid() && current == -1
      ensures this.text == text && this.rows == rows && this.fields == fields && this.afs == afs && this.having == having
    {
      this.text, this.rows, this.fields, this.afs, this.having := text, rows, fields, afs, having;
      computed, groups, current, cells := false, [], -1, [];
    }

    method Next() returns (rc: RC)
      modifies this
      requires Valid()
      ensures Valid() && current == old(current) + 1
      ensures rc == if current < |Output()| then Success else Eof
      ensures rc == Success ==> cells == Output()[current].values + Output()[current].aggregates
    {
      if !computed {
        computed := true;
        groups := Compute(text, rows, fields, afs, having);
      }
      current := current + 1;
      if current >= |groups| {
        return Eof;
      }
      cells := groups[current].values + groups[current].aggregates;
      rc := Success;
    }
  }

  // --- Grouping by values ---

  /** What `Value::to_string` gives for null, characters and the default for a missing field. */
  ghost predicate Renders(text: Value -> string) {
    text(Null) == "NULL" && text(Integer(0)) == "0" && forall s :: text(Chars(s)) == s
  }

  function CellValue(t: Tuple, f: FieldRef): Value {
    var v := Cell(t, f);
    if v.Some? then v.value else Integer(0)
  }

  /** No text of a group value holds the separator. */
  ghost predicate SeparatorFree(text: Value -> string, t: Tuple, fields: seq<FieldRef>) {
    forall f :: f in fields ==> SEPARATOR !in text(CellValue(t, f))
  }

  /** The texts of the values of one column tell them apart. */
  ghost predicate Telling(text: Value -> string, rows: seq<Tuple>, f: FieldRef) {
    forall s, t :: s in rows && t in rows && text(CellValue(s, f)) == text(CellValue(t, f)) ==> CellValue(s, f) == CellValue(t, f)
  }

  ghost predicate SameTexts(text: Value -> string, s: Tuple, t: Tuple, fields: seq<FieldRef>) {
    forall f :: f in fields ==> text(CellValue(s, f)) == text(CellValue(t, f))
  }

  ghost predicate SameValues(s: Tuple, t: Tuple, fields: seq<FieldRef>) {
    forall f :: f in fields ==> CellValue(s, f) == CellValue(t, f)
  }

  /** A closed text can be split off the end of a key. */
  lemma SplitLast(a: string, b: string, x: string, y: string)
    requires SEPARATOR !in x && SEPARATOR !in y
    requires a == [] || a[|a| - 1] == SEPARATOR
    requires b == [] || b[|b| - 1] == SEPARATOR
    requires a + x + [SEPARATOR] == b + y + [SEPARATOR]
    ensures a == b && x == y
  {
    var k := a + x + [SEPARATOR];
    assert k[..|k| - 1] == a + x && k[..|k| - 1] == b + y;
    NotLonger(a, x, b, y);
    NotLonger(b, y, a, x);
    assert a == (a + x)[..|a|] && b == (b + y)[..|a|];
    assert x == (a + x)[|a|..] && y == (b + y)[|a|..];
  }

  lemma NotLonger(a: string, x: string, b: string, y: string)
    requires a + x == b + y && SEPARATOR !in x && (b == [] || b[|b| - 1] == SEPARATOR)
    ensures |b| <= |a|
  {
    assert forall i :: |a| <= i < |a + x| ==> (a + x)[i] != SEPARATOR;
    assert b != [] ==> (b + y)[|b| - 1] == SEPARATOR;
  }

  lemma KeyLast(text: Value -> string, t: Tuple, fields: seq<FieldRef>)
    requires Renders(text) && fields != []
    ensures var n := |fields| - 1;
      GroupKey(text, t, fields) == GroupKey(text, t, fields[..n]) + text(CellValue(t, fields[n])) + [SEPARATOR]
  {
  }

  /** The key is the list of texts: two rows share it if and only if they agree on every text. */
  lemma {:induction false} KeyIsTexts(text: Value -> string, s: Tuple, t: Tuple, fields: seq<FieldRef>)
    requires Renders(text) && SeparatorFree(text, s, fields) && SeparatorFree(text, t, fields)
    ensures GroupKey(text, s, fields) == GroupKey(text, t, fields) <==> SameTexts(text, s, t, fields)
  {
    if fields != [] {
      var n := |fields| - 1;
      var a, b := GroupKey(text, s, fields[..n]), GroupKey(text, t, fields[..n]);
      var x, y := text(CellValue(s, fields[n])), text(CellValue(t, fields[n]));
      KeyIsTexts(text, s, t, fields[..n]);
      KeyLast(text, s, fields);
      KeyLast(text, t, fields);
      assert fields == fields[..n] + [fields[n]];
      if GroupKey(text, s, fields) == GroupKey(text, t, fields) {
        KeyEnds(text, s, fields[..n]);
        KeyEnds(text, t, fields[..n]);
        SplitLast(a, b, x, y);
      }
    }
  }

  lemma KeyEnds(text: Value -> string, t: Tuple, fields: seq<FieldRef>)
    ensures var k := GroupKey(text, t, fields); k == [] || k[|k| - 1] == SEPARATOR
  {
  }

  lemma {:induction false} ValuesLength(t: Tuple, fields: seq<FieldRef>)
    ensures |GroupValues(t, fields)| == |fields|
  {
    if fields != [] { ValuesLength(t, fields[..|fields| - 1]); }
  }

  lemma {:induction false} ValuesAre(s: Tuple, t: Tuple, fields: seq<FieldRef>)
    ensures GroupValues(s, fields) == GroupValues(t, fields) <==> SameValues(s, t, fields)
  {
    if fields != [] {
      var n := |fields| - 1;
      var a, b := GroupValues(s, fields[..n]), GroupValues(t, fields[..n]);
      var x, y := CellValue(s, fields[n]), CellValue(t, fields[n]);
      ValuesAre(s, t, fields[..n]);
      ValuesLength(s, fields[..n]);
      ValuesLength(t, fields[..n]);
      assert fields == fields[..n] + [fields[n]];
      assert (a + [x])[..n] == a && (a + [x])[n] == x && (b + [y])[..n] == b && (b + [y])[n] == y;
    }
  }

  /** The group values are those of the fields, in order, and 0 for a field that is not there. */
  lemma {:induction false} ValuesAt(t: Tuple, fields: seq<FieldRef>, i: nat)
    requires i < |fields|
    ensures |GroupValues(t, fields)| == |fields| && GroupValues(t, fields)[i] == CellValue(t, fields[i])
  {
    var n := |fields| - 1;
    ValuesLength(t, fields[..n]);
    if i < n { ValuesAt(t, fields[..n], i); }
  }

  /** A cell is looked up with its table, and then by its name alone. */
  lemma CellReads(env: Env, t: Tuple, f: FieldRef)
    ensures Eval(env, Field(f.0, f.1), t) != None ==> CellValue(t, f) == Eval(env, Field(f.0, f.1), t).value
    ensures Eval(env, Field(f.0, f.1), t) == None && Eval(env, Field("", f.1), t) != None ==>
      CellValue(t, f) == Eval(env, Field("", f.1), t).value
    ensures Eval(env, Field(f.0, f.1), t) == None && Eval(env, Field("", f.1), t) == None ==> CellValue(t, f) == Integer(0)
  {
  }

  /** If no text holds the separator and each column's texts tell its values apart, the key stands for the values. */
  lemma KeyIsValues(text: Value -> string, rows: seq<Tuple>, fields: seq<FieldRef>, s: Tuple, t: Tuple)
    requires Renders(text) && s in rows && t in rows
    requires forall r :: r in rows ==> SeparatorFree(text, r, fields)
    requires forall f :: f in fields ==> Telling(text, rows, f)
    ensures GroupKey(text, s, fields) == GroupKey(text, t, fields) <==> GroupValues(s, fields) == GroupValues(t, fields)
  {
    KeyIsTexts(text, s, t, fields);
    ValuesAre(s, t, fields);
  }

  lemma {:induction false} MembersHave(rows: seq<Tuple>, ks: seq<string>, k: string, i: nat)
    requires |rows| == |ks| && i < |rows| && ks[i] == k
    ensures rows[i] in Members(rows, ks, k)
  {
    var n := |rows| - 1;
    if i < n { MembersHave(rows[..n], ks[..n], k, i); }
  }

  lemma {:induction false} MemberHasKey(rows: seq<Tuple>, ks: seq<string>, k: string, t: Tuple)
    requires |rows| == |ks| && t in Members(rows, ks, k)
    ensures exists i :: 0 <= i < |rows| && rows[i] == t && ks[i] == k
  {
    var n := |rows| - 1;
    if t in Members(rows[..n], ks[..n], k) {
      MemberHasKey(rows[..n], ks[..n], k, t);
      var i :| 0 <= i < n && rows[..n][i] == t && ks[..n][i] == k;
      assert rows[i] == t && ks[i] == k;
    } else {
      assert rows[n] == t && ks[n] == k;
    }
  }

  /** Then a group holds exactly the rows with its values. */
  lemma GroupsAreByValue(text: Value -> string, rows: seq<Tuple>, fields: seq<FieldRef>, afs: seq<AggField>, k: string, t: Tuple)
    requires Renders(text) && t in rows && k in KeysOf(text, rows, fields)
    requires forall r :: r in rows ==> SeparatorFree(text, r, fields)
    requires forall f :: f in fields ==> Telling(text, rows, f)
    ensures var ks := KeysOf(text, rows, fields);
      t in Members(rows, ks, k) <==> GroupValues(t, fields) == GroupOf(rows, ks, fields, afs, k).values
  {
    var ks := KeysOf(text, rows, fields);
    var ms := Members(rows, ks, k);
    MembersKeyed(rows, ks, k);
    assert ms[0] in ms;
    MemberHasKey(rows, ks, k, ms[0]);
    KeyIsValues(text, rows, fields, t, ms[0]);
    if t in ms { MemberHasKey(rows, ks, k, t); }
    var i :| 0 <= i < |rows| && rows[i] == t;
    if ks[i] == k { MembersHave(rows, ks, k, i); }
  }

  lemma OneKey(text: Value -> string, s: Tuple, t: Tuple, fields: seq<FieldRef>)
    requires GroupKey(text, s, fields) == GroupKey(text, t, fields)
    ensures Keys(KeysOf(text, [s, t], fields)) == [GroupKey(text, s, fields)]
  {
    var k := GroupKey(text, s, fields);
    assert KeysOf(text, [s, t], fields) == [k, k] && [k, k] == [k] + [k] && [k] == [] + [k];
    KeysSnoc([], k);
    KeysSnoc([k], k);
  }

  /** A null and the characters `NULL` get into one group. */
  lemma NullMeetsText(text: Value -> string, s: Tuple, t: Tuple, f: FieldRef, afs: seq<AggField>)
    requires Renders(text) && Cell(s, f) == Some(Null) && Cell(t, f) == Some(Chars("NULL"))
    ensures GroupValues(s, [f]) != GroupValues(t, [f]) && |Groups(text, [s, t], [f], afs)| == 1
  {
    assert [f][..0] == [];
    OneKey(text, s, t, [f]);
    ValuesAre(s, t, [f]);
    assert f in [f];
  }

  lemma KeyOfTwo(text: Value -> string, t: Tuple, f: FieldRef, g: FieldRef)
    requires Renders(text)
    ensures GroupKey(text, t, [f, g]) == text(CellValue(t, f)) + [SEPARATOR] + text(CellValue(t, g)) + [SEPARATOR]
  {
    assert [f, g][..1] == [f] && [f][..0] == [];
    KeyLast(text, t, [f, g]);
    KeyLast(text, t, [f]);
    assert "" + text(CellValue(t, f)) == text(CellValue(t, f));
  }

  /** So do different lists of characters, if they may hold the separator. */
  lemma SeparatorMeetsText(text: Value -> string, s: Tuple, t: Tuple, f: FieldRef, g: FieldRef, afs: seq<AggField>)
    requires Renders(text) && Cell(s, f) == Some(Chars("a" + [SEPARATOR] + "b")) && Cell(s, g) == Some(Chars("c"))
    requires Cell(t, f) == Some(Chars("a")) && Cell(t, g) == Some(Chars("b" + [SEPARATOR] + "c"))
    ensures GroupValues(s, [f, g]) != GroupValues(t, [f, g]) && |Groups(text, [s, t], [f, g], afs)| == 1
  {
    KeyOfTwo(text, s, f, g);
    KeyOfTwo(text, t, f, g);
    var a := "a" + [SEPARATOR];
    assert a + "b" + [SEPARATOR] + "c" == a + ("b" + [SEPARATOR] + "c");
    OneKey(text, s, t, [f, g]);
    ValuesAre(s, t, [f, g]);
    assert f in [f, g] && |Chars("a").s| != |Chars("a" + [SEPARATOR] + "b").s|;
  }
}
