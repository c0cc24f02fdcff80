/**
  The LRU cache: deps/common/lang/lru_cache.h.  A doubly linked list in order of recency and a hash
  set of its nodes refine a sequence of entries, most recently used first, with distinct keys.
 */
module LruCache {
  import opened Options

  datatype Entry<K, V> = Entry(key: K, value: V)

  // --- Entries in order of recency ---

  ghost predicate Distinct<K, V>(es: seq<Entry<K, V>>) {
    forall i, j :: 0 <= i < j < |es| ==> es[i].key != es[j].key
  }

  ghost predicate HasKey<K, V>(es: seq<Entry<K, V>>, k: K) {
    exists i :: 0 <= i < |es| && es[i].key == k
  }

  function MoveToFront<T>(s: seq<T>, i: nat): seq<T>
    requires i < |s|
  {
    [s[i]] + s[..i] + s[i + 1..]
  }

  function Without<T>(s: seq<T>, i: nat): seq<T>
    requires i < |s|
  {
    s[..i] + s[i + 1..]
  }

  /** The map that a sequence of entries stands for. */
  ghost function MapOf<K, V>(es: seq<Entry<K, V>>): map<K, V> {
    if es == [] then map[] else MapOf(es[1..])[es[0].key := es[0].value]
  }

  lemma {:induction false} MapOfKeys<K, V>(es: seq<Entry<K, V>>, k: K)
    ensures k in MapOf(es) <==> HasKey(es, k)
  {
    if es != [] {
      MapOfKeys(es[1..], k);
      if i :| 0 <= i < |es| - 1 && es[1..][i].key == k { assert es[i + 1].key == k; }
      if i :| 1 <= i < |es| && es[i].key == k { assert es[1..][i - 1].key == k; }
    }
  }

  /** Each entry is found under its key. */
  lemma {:induction false} MapOfAt<K, V>(es: seq<Entry<K, V>>, i: nat)
    requires Distinct(es) && i < |es|
    ensures es[i].key in MapOf(es) && MapOf(es)[es[i].key] == es[i].value
  {
    if i > 0 {
      assert es[1..][i - 1] == es[i];
      MapOfAt(es[1..], i - 1);
    }
  }

  lemma WithoutIndex<T>(s: seq<T>, i: nat)
    requires i < |s|
    ensures |Without(s, i)| == |s| - 1
    ensures forall j {:trigger Without(s, i)[j]} :: 0 <= j < |s| - 1 ==> Without(s, i)[j] == if j < i then s[j] else s[j + 1]
    ensures MoveToFront(s, i) == [s[i]] + Without(s, i)
    ensures multiset(MoveToFront(s, i)) == multiset(s)
  {
    assert s == s[..i] + [s[i]] + s[i + 1..];
  }

  lemma PutBack<K, V>(m: map<K, V>, k: K)
    requires k in m
    ensures (m - {k})[k := m[k]] == m
  {
  }

  /** Where the element at place `j` was before element `i` moved to the front. */
  function Source(i: nat, j: nat): nat {
    if j == 0 then i else if j <= i then j - 1 else j
  }

  lemma MoveToFrontIndex<T>(s: seq<T>, i: nat)
    requires i < |s|
    ensures |MoveToFront(s, i)| == |s|
    ensures forall j {:trigger MoveToFront(s, i)[j]} :: 0 <= j < |s| ==> Source(i, j) < |s| && MoveToFront(s, i)[j] == s[Source(i, j)]
  {
    forall j | 0 <= j < |s| ensures Source(i, j) < |s| && MoveToFront(s, i)[j] == s[Source(i, j)] {
      if j > i { assert s[i + 1..][j - i - 1] == s[j]; }
    }
  }

  /** Touching an entry changes the order and not the map. */
  lemma TouchKeepsMap<K, V>(es: seq<Entry<K, V>>, i: nat)
    requires Distinct(es) && i < |es|
    ensures Distinct(MoveToFront(es, i)) && MapOf(MoveToFront(es, i)) == MapOf(es)
    ensures multiset(MoveToFront(es, i)) == multiset(es)
  {
    var w := Without(es, i);
    WithoutIndex(es, i);
    RemoveMap(es, i);
    MapOfAt(es, i);
    PushMap(w, es[i].key, es[i].value);
    assert Entry(es[i].key, es[i].value) == es[i];
    PutBack(MapOf(es), es[i].key);
  }

  lemma PushMap<K, V>(es: seq<Entry<K, V>>, k: K, v: V)
    requires Distinct(es) && !HasKey(es, k)
    ensures Distinct([Entry(k, v)] + es) && MapOf([Entry(k, v)] + es) == MapOf(es)[k := v]
  {
    assert ([Entry(k, v)] + es)[1..] == es;
  }

  lemma WithoutDistinct<K, V>(es: seq<Entry<K, V>>, i: nat)
    requires Distinct(es) && i < |es|
    ensures Distinct(Without(es, i)) && !HasKey(Without(es, i), es[i].key)
  {
    WithoutIndex(es, i);
  }

  lemma {:induction false} RemoveMap<K, V>(es: seq<Entry<K, V>>, i: nat)
    requires Distinct(es) && i < |es|
    ensures Distinct(Without(es, i)) && !HasKey(Without(es, i), es[i].key)
    ensures MapOf(Without(es, i)) == MapOf(es) - {es[i].key}
  {
    WithoutDistinct(es, i);
    if i == 0 {
      assert Without(es, i) == es[1..];
      MapOfKeys(es[1..], es[0].key);
    } else {
      assert Without(es, i)[1..] == Without(es[1..], i - 1);
      RemoveMap(es[1..], i - 1);
      assert Without(es, i)[0] == es[0] && es[0].key != es[i].key;
      assert MapOf(es) == MapOf(es[1..])[es[0].key := es[0].value];
    }
  }

  /** The entries of other keys, in order. */
  ghost function Others<K, V>(es: seq<Entry<K, V>>, k: K): seq<Entry<K, V>> {
    if es == [] then [] else (if es[0].key == k then [] else [es[0]]) + Others(es[1..], k)
  }

  lemma {:induction false} OthersAbsent<K, V>(es: seq<Entry<K, V>>, k: K)
    requires !HasKey(es, k)
    ensures Others(es, k) == es
  {
    if es != [] {
      assert forall i :: 0 <= i < |es| - 1 ==> es[1..][i] == es[i + 1];
      assert es[0].key != k;
      OthersAbsent(es[1..], k);
    }
  }

  lemma {:induction false} OthersWithout<K, V>(es: seq<Entry<K, V>>, i: nat)
    requires Distinct(es) && i < |es|
    ensures Others(es, es[i].key) == Without(es, i)
  {
    if i == 0 {
      assert forall j :: 0 <= j < |es| - 1 ==> es[1..][j] == es[j + 1];
      OthersAbsent(es[1..], es[0].key);
      assert Without(es, 0) == es[1..];
    } else {
      OthersWithout(es[1..], i - 1);
      assert Without(es, i) == [es[0]] + Without(es[1..], i - 1);
    }
  }

  /** Using `k`: its entry comes first, the others keep their order. */
  ghost function Used<K, V>(es: seq<Entry<K, V>>, k: K): seq<Entry<K, V>> {
    if HasKey(es, k) then (var i :| 0 <= i < |es| && es[i].key == k; [es[i]] + Others(es, k)) else es
  }

  lemma UsedAt<K, V>(es: seq<Entry<K, V>>, i: nat)
    requires Distinct(es) && i < |es|
    ensures Used(es, es[i].key) == MoveToFront(es, i)
  {
    OthersWithout(es, i);
    WithoutIndex(es, i);
    var k := es[i].key;
    var j :| 0 <= j < |es| && es[j].key == k && Used(es, k) == [es[j]] + Others(es, k);
    assert j == i;
  }

  /** Using a key keeps the map; the used entry comes first. */
  lemma UsedOnMap<K, V>(es: seq<Entry<K, V>>, k: K)
    requires Distinct(es)
    ensures Distinct(Used(es, k)) && MapOf(Used(es, k)) == MapOf(es)
    ensures k in MapOf(es) <==> HasKey(es, k)
    ensures HasKey(es, k) ==> Used(es, k) == [Entry(k, MapOf(es)[k])] + Others(es, k)
  {
    MapOfKeys(es, k);
    if HasKey(es, k) {
      var i: nat :| 0 <= i < |es| && es[i].key == k;
      UsedAt(es, i);
      TouchKeepsMap(es, i);
      MapOfAt(es, i);
      OthersWithout(es, i);
      WithoutIndex(es, i);
    }
  }

  lemma OverwriteAt<K, V>(es: seq<Entry<K, V>>, i: nat, v: V)
    requires Distinct(es) && i < |es|
    ensures MoveToFront(es[i := Entry(es[i].key, v)], i) == [Entry(es[i].key, v)] + Others(es, es[i].key)
  {
    OthersWithout(es, i);
    var r := es[i := Entry(es[i].key, v)];
    WithoutIndex(r, i);
    assert r[..i] == es[..i] && r[i + 1..] == es[i + 1..];
  }

  /** Dropping a key removes it from the map. */
  lemma OthersOnMap<K, V>(es: seq<Entry<K, V>>, k: K)
    requires Distinct(es)
    ensures Distinct(Others(es, k)) && !HasKey(Others(es, k), k) && MapOf(Others(es, k)) == MapOf(es) - {k}
  {
    if HasKey(es, k) {
      var i: nat :| 0 <= i < |es| && es[i].key == k;
      OthersWithout(es, i);
      RemoveMap(es, i);
    } else {
      OthersAbsent(es, k);
      MapOfKeys(es, k);
    }
  }

  /** Putting a key sets it in the map. */
  lemma PutOnMap<K, V>(es: seq<Entry<K, V>>, k: K, v: V)
    requires Distinct(es)
    ensures Distinct([Entry(k, v)] + Others(es, k)) && MapOf([Entry(k, v)] + Others(es, k)) == MapOf(es)[k := v]
  {
    OthersOnMap(es, k);
    PushMap(Others(es, k), k, v);
    assert (MapOf(es) - {k})[k := v] == MapOf(es)[k := v];
  }

  // --- Whole runs ---

  datatype Operation<K, V> = GetOp(key: K) | PutOp(key: K, value: V) | RemoveOp(key: K)

  ghost function EntriesAfter<K, V>(ops: seq<Operation<K, V>>): seq<Entry<K, V>> {
    if ops == [] then []
    else
      var n := |ops| - 1;
      var es := EntriesAfter(ops[..n]);
      match ops[n]
      case GetOp(k) => Used(es, k)
      case PutOp(k, v) => [Entry(k, v)] + Others(es, k)
      case RemoveOp(k) => Others(es, k)
  }

  ghost function MapAfter<K, V>(ops: seq<Operation<K, V>>): map<K, V> {
    if ops == [] then map[]
    else
      var n := |ops| - 1;
      var m := MapAfter(ops[..n]);
      match ops[n]
      case GetOp(_) => m
      case PutOp(k, v) => m[k := v]
      case RemoveOp(k) => m - {k}
  }

  /** After any run the entries have distinct keys and are the bindings of the plain map; a key used last is first. */
  lemma {:induction false} RunRefinesMap<K, V>(ops: seq<Operation<K, V>>)
    ensures Distinct(EntriesAfter(ops)) && MapOf(EntriesAfter(ops)) == MapAfter(ops)
    ensures ops != [] && !ops[|ops| - 1].RemoveOp? && ops[|ops| - 1].key in MapAfter(ops) ==>
      EntriesAfter(ops) != [] && EntriesAfter(ops)[0] == Entry(ops[|ops| - 1].key, MapAfter(ops)[ops[|ops| - 1].key])
  {
    if ops != [] {
      var n := |ops| - 1;
      RunRefinesMap(ops[..n]);
      var es := EntriesAfter(ops[..n]);
      match ops[n]
      case GetOp(k) => UsedOnMap(es, k);
      case PutOp(k, v) => PutOnMap(es, k, v);
      case RemoveOp(k) => OthersOnMap(es, k);
    }
  }

  lemma {:induction false} MapSize<K, V>(es: seq<Entry<K, V>>)
    requires Distinct(es)
    ensures |MapOf(es).Keys| == |es|
  {
    if es != [] {
      assert forall i :: 0 <= i < |es| - 1 ==> es[1..][i] == es[i + 1];
      MapSize(es[1..]);
      MapOfKeys(es[1..], es[0].key);
      assert MapOf(es).Keys == MapOf(es[1..]).Keys + {es[0].key};
    }
  }

  /** The entries from place `i` on that a visitor sees: up to and including the first it answers `false` to. */
  ghost function VisitedFrom<K, V>(es: seq<Entry<K, V>>, i: nat, func: (K, V) -> bool): seq<Entry<K, V>>
    decreases |es| - i
  {
    if i >= |es| then []
    else if func(es[i].key, es[i].value) then [es[i]] + VisitedFrom(es, i + 1, func)
    else [es[i]]
  }

  lemma SameKeys<K, V, W>(a: map<K, V>, b: map<K, W>)
    requires forall k :: k in a <==> k in b
    ensures a.Keys == b.Keys
  {
  }

  ghost function Reversed<T>(s: seq<T>): (r: seq<T>)
    ensures |r| == |s| && forall i :: 0 <= i < |s| ==> r[i] == s[|s| - 1 - i]
  {
    seq(|s|, i requires 0 <= i < |s| => s[|s| - 1 - i])
  }

  // --- The linked list ---

  class Node<K, V> {
    const key: K
    var value: V
    var prev: Node?<K, V>
    var next: Node?<K, V>

    constructor (key: K, value: V)
      ensures this.key == key && this.value == value && prev == null && next == null
    {
      this.key, this.value, this.prev, this.next := key, value, null, null;
    }
  }

  ghost function At<K, V>(list: seq<Node<K, V>>, i: int): Node?<K, V> {
    if 0 <= i < |list| then list[i] else null
  }

  /** The neighbours of each node are those of the sequence, and keys are distinct. */
  ghost predicate Linked<K, V>(list: seq<Node<K, V>>)
    reads list
  {
    && (forall i {:trigger list[i].prev} :: 0 <= i < |list| ==> list[i].prev == At(list, i - 1))
    && (forall i {:trigger list[i].next} :: 0 <= i < |list| ==> list[i].next == At(list, i + 1))
    && (forall i, j :: 0 <= i < j < |list| ==> list[i].key != list[j].key)
  }

  ghost function Entries<K, V>(list: seq<Node<K, V>>): (es: seq<Entry<K, V>>)
    reads list
    ensures |es| == |list| && forall i :: 0 <= i < |list| ==> es[i] == Entry(list[i].key, list[i].value)
  {
    seq(|list|, i requires 0 <= i < |list| reads list => Entry(list[i].key, list[i].value))
  }

  /** One more entry is seen; the visit goes on, or ends there. */
  lemma VisitNext<K, V>(all: seq<Entry<K, V>>, seen: seq<Entry<K, V>>, es: seq<Entry<K, V>>, i: nat, func: (K, V) -> bool)
    requires i < |es| && all == seen + VisitedFrom(es, i, func)
    ensures func(es[i].key, es[i].value) ==> all == (seen + [es[i]]) + VisitedFrom(es, i + 1, func)
    ensures !func(es[i].key, es[i].value) ==> all == seen + [es[i]]
  {
    var rest := VisitedFrom(es, i + 1, func);
    assert (seen + [es[i]]) + rest == seen + ([es[i]] + rest);
  }

  lemma VisitEnds<K, V>(all: seq<Entry<K, V>>, seen: seq<Entry<K, V>>, es: seq<Entry<K, V>>, func: (K, V) -> bool)
    requires all == seen + VisitedFrom(es, |es|, func)
    ensures all == seen
  {
  }

  /** The loop of `foreach`. */
  method Walk<K, V>(front: Node?<K, V>, ghost list: seq<Node<K, V>>, func: (K, V) -> bool) returns (seen: seq<Entry<K, V>>)
    requires Linked(list) && front == At(list, 0)
    ensures seen == VisitedFrom(Entries(list), 0, func)
  {
    seen := [];
    var node := front;
    ghost var i, es := 0, Entries(list);
    ghost var all := VisitedFrom(es, 0, func);
    while node != null
      invariant 0 <= i <= |list| && node == At(list, i)
      invariant all == seen + VisitedFrom(es, i, func)
      decreases |list| - i
    {
      assert node.next == At(list, i + 1) && es[i] == Entry(node.key, node.value);
      VisitNext(all, seen, es, i, func);
      seen := seen + [Entry(node.key, node.value)];
      if !func(node.key, node.value) {
        return;
      }
      node := node.next;
      i := i + 1;
    }
    VisitEnds(all, seen, es, func);
  }

  /** The loop of `foreach_reverse`. */
  method WalkBack<K, V>(tail: Node?<K, V>, ghost list: seq<Node<K, V>>, func: (K, V) -> bool) returns (seen: seq<Entry<K, V>>)
    requires Linked(list) && tail == At(list, |list| - 1)
    ensures seen == VisitedFrom(Reversed(Entries(list)), 0, func)
  {
    seen := [];
    var node := tail;
    ghost var i, rev := 0, Reversed(Entries(list));
    ghost var all := VisitedFrom(rev, 0, func);
    while node != null
      invariant 0 <= i <= |list| && node == At(list, |list| - 1 - i)
      invariant all == seen + VisitedFrom(rev, i, func)
      decreases |list| - i
    {
      assert node.prev == At(list, |list| - 2 - i) && rev[i] == Entry(node.key, node.value);
      VisitNext(all, seen, rev, i, func);
      seen := seen + [Entry(node.key, node.value)];
      if !func(node.key, node.value) {
        return;
      }
      node := node.prev;
      i := i + 1;
    }
    VisitEnds(all, seen, rev, func);
  }

  /** The hash set holds exactly the nodes of the list, each under its key. */
  ghost predicate Indexed<K, V>(searcher: map<K, Node<K, V>>, list: seq<Node<K, V>>) {
    && (forall k {:trigger searcher[k]} :: k in searcher ==> searcher[k] in list && searcher[k].key == k)
    && (forall n {:trigger n.key in searcher} {:trigger searcher[n.key]} :: n in list ==> n.key in searcher && searcher[n.key] == n)
  }

  lemma IndexedSame<K, V>(searcher: map<K, Node<K, V>>, a: seq<Node<K, V>>, b: seq<Node<K, V>>)
    requires Indexed(searcher, a) && multiset(a) == multiset(b)
    ensures Indexed(searcher, b)
  {
    forall n ensures n in a <==> n in b {
      assert n in multiset(a) <==> n in multiset(b);
    }
  }

  /** The neighbours of node `i` are linked with each other. */
  ghost predicate Bypassed<K, V>(list: seq<Node<K, V>>, i: nat)
    reads list
  {
    && (forall j {:trigger list[j].prev} :: 0 <= j < |list| && j != i ==> list[j].prev == At(list, if j == i + 1 then i - 1 else j - 1))
    && (forall j {:trigger list[j].next} :: 0 <= j < |list| && j != i ==> list[j].next == At(list, if j == i - 1 then i + 1 else j + 1))
    && (forall j, k :: 0 <= j < k < |list| ==> list[j].key != list[k].key)
  }

  lemma BypassedLinked<K, V>(list: seq<Node<K, V>>, i: nat)
    requires i < |list| && Bypassed(list, i)
    ensures Linked(Without(list, i)) && list[i] !in Without(list, i)
    ensures forall n :: n in Without(list, i) ==> n in list && n.key != list[i].key
  {
    WithoutIndex(list, i);
  }

  /** Take a node out of its neighbours' links. */
  method Detach<K, V>(node: Node<K, V>, ghost list: seq<Node<K, V>>, ghost i: nat)
    requires Linked(list) && i < |list| && list[i] == node
    modifies list
    ensures Bypassed(list, i)
    ensures forall n :: n in list ==> n.value == old(n.value)
    ensures node.prev == old(node.prev) && node.next == old(node.next)
  {
    if node.prev != null {
      assert i > 0 && node.prev == list[i - 1];
      node.prev.next := node.next;
    }
    if node.next != null {
      assert i < |list| - 1 && node.next == list[i + 1];
      node.next.prev := node.prev;
    }
  }

  /** Link a node before the first of the list. */
  method LinkFront<K, V>(node: Node<K, V>, front: Node?<K, V>, ghost list: seq<Node<K, V>>)
    requires Linked(list) && node !in list && front == At(list, 0)
    requires forall i :: 0 <= i < |list| ==> list[i].key != node.key
    modifies node, list
    ensures Linked([node] + list)
    ensures node.value == old(node.value) && forall n :: n in list ==> n.value == old(n.value)
  {
    node.prev := null;
    node.next := front;
    if front != null {
      front.prev := node;
    }
    ghost var r := [node] + list;
    assert forall j :: 1 <= j < |r| ==> r[j] == list[j - 1];
  }

  /** The ends of a list after node `i` has moved to the front. */
  lemma MovedEnds<T>(list: seq<T>, i: nat, w: seq<T>, r: seq<T>)
    requires 0 < i < |list| && w == Without(list, i) && r == MoveToFront(list, i)
    ensures r == [list[i]] + w && |r| == |list| && |w| == |list| - 1 > 0 && r[0] == list[i] && w[0] == list[0]
    ensures r[|r| - 1] == w[|w| - 1] == if i == |list| - 1 then list[i - 1] else list[|list| - 1]
  {
    WithoutIndex(list, i);
  }

  /** Relink node `i`, which is not the first, as the first; the new last node is returned. */
  method MoveUp<K, V>(node: Node<K, V>, front: Node<K, V>, tail: Node<K, V>, ghost list: seq<Node<K, V>>, ghost i: nat)
    returns (newTail: Node?<K, V>)
    requires Linked(list) && 0 < i < |list| && list[i] == node && front == list[0] && tail == list[|list| - 1]
    modifies list
    ensures Linked(MoveToFront(list, i)) && newTail == At(MoveToFront(list, i), |list| - 1)
    ensures forall n :: n in list ==> n.value == old(n.value)
  {
    ghost var w, r := Without(list, i), MoveToFront(list, i);
    MovedEnds(list, i, w, r);
    assert node.prev == list[i - 1] && node.next == At(list, i + 1);
    Detach(node, list, i);
    BypassedLinked(list, i);
    newTail := if node.next == null then node.prev else tail;
    assert newTail == r[|r| - 1];
    LinkFront(node, front, w);
  }

  lemma WithoutEnds<T>(list: seq<T>, i: nat)
    requires i < |list|
    ensures var w := Without(list, i);
      && |w| == |list| - 1
      && (w != [] ==> w[0] == if i == 0 then list[1] else list[0])
      && (w != [] ==> w[|w| - 1] == if i == |list| - 1 then list[i - 1] else list[|list| - 1])
  {
  }

  /** Unlink node `i`; the new ends are returned. */
  method TakeOut<K, V>(node: Node<K, V>, front: Node<K, V>, tail: Node<K, V>, ghost list: seq<Node<K, V>>, ghost i: nat)
    returns (newFront: Node?<K, V>, newTail: Node?<K, V>)
    requires Linked(list) && i < |list| && list[i] == node && front == list[0] && tail == list[|list| - 1]
    modifies list
    ensures Linked(Without(list, i)) && newFront == At(Without(list, i), 0) && newTail == At(Without(list, i), |list| - 2)
    ensures forall n :: n in list ==> n.value == old(n.value)
  {
    WithoutEnds(list, i);
    assert node.prev == At(list, i - 1) && node.next == At(list, i + 1);
    Detach(node, list, i);
    BypassedLinked(list, i);
    newFront := if front == node then node.next else front;
    newTail := if tail == node then node.prev else tail;
  }

  lemma IndexedWithout<K, V>(searcher: map<K, Node<K, V>>, list: seq<Node<K, V>>, i: nat)
    requires Indexed(searcher, list) && i < |list|
    requires forall j, k :: 0 <= j < k < |list| ==> list[j].key != list[k].key
    ensures Indexed(searcher - {list[i].key}, Without(list, i))
    ensures forall n :: n in Without(list, i) ==> n in list
  {
    WithoutIndex(list, i);
    var w := Without(list, i);
    forall n ensures n in w <==> n in list && n != list[i] {
      if n in list && n != list[i] {
        var j :| 0 <= j < |list| && list[j] == n;
        assert w[if j < i then j else j - 1] == n;
      }
      if n in w {
        var j :| 0 <= j < |w| && w[j] == n;
        assert list[if j < i then j else j + 1] == n;
      }
    }
  }

  lemma IndexedPush<K, V>(searcher: map<K, Node<K, V>>, list: seq<Node<K, V>>, node: Node<K, V>)
    requires Indexed(searcher, list) && node.key !in searcher
    ensures Indexed(searcher[node.key := node], [node] + list)
    ensures node !in list && forall n :: n in list ==> n.key != node.key
  {
    forall n | n in list ensures n.key != node.key {
      assert n.key in searcher;
    }
    forall n | n in [node] + list && n != node
      ensures n.key in searcher[node.key := node] && searcher[node.key := node][n.key] == n
    {
      assert n.key in searcher;
    }
  }

  class Cache<K(==), V> {
    /** The hash set, looked up by key. */
    var searcher: map<K, Node<K, V>>
    var front: Node?<K, V>
    var tail: Node?<K, V>
    ghost var list: seq<Node<K, V>>

    ghost predicate Valid()
      reads this, list
    {
      && Linked(list)
      && front == At(list, 0) && tail == At(list, |list| - 1)
      && Indexed(searcher, list)
    }

    ghost function Contents(): seq<Entry<K, V>>
      reads this, list
    {
      Entries(list)
    }

    constructor ()
      ensures Valid() && Contents() == [] && list == []
    {
      searcher, front, tail, list := map[], null, null, [];
    }

    ghost function IndexOf(node: Node<K, V>): (i: nat)
      reads this
      requires node in list
      ensures i < |list| && list[i] == node
    {
      var i: nat :| i < |list| && list[i] == node;
      i
    }

    /** The hash set is that of the reordered list. */
    lemma Moved(i: nat)
      requires Indexed(searcher, list) && i < |list|
      ensures Indexed(searcher, MoveToFront(list, i)) && |MoveToFront(list, i)| == |list| && MoveToFront(list, i)[0] == list[i]
      ensures i == 0 ==> MoveToFront(list, i) == list
      ensures forall n :: n in MoveToFront(list, i) ==> n in list
    {
      WithoutIndex(list, i);
      IndexedSame(searcher, list, MoveToFront(list, i));
    }

    /** `lru_touch`. */
    method Touch(node: Node<K, V>, ghost i: nat)
      requires Valid() && i < |list| && list[i] == node
      modifies this`front, this`tail, this`list, list
      ensures Valid() && list == MoveToFront(old(list), i)
      ensures forall n :: n in list ==> n in old(list) && n.value == old(n.value)
    {
      if node.prev == null {
        assert i == 0;
        assert MoveToFront(list, i) == list;
        return;
      }
      Raise(node, i);
    }

    method Raise(node: Node<K, V>, ghost i: nat)
      requires Valid() && 0 < i < |list| && list[i] == node
      modifies this`front, this`tail, this`list, list
      ensures Valid() && list == MoveToFront(old(list), i)
      ensures forall n :: n in list ==> n in old(list) && n.value == old(n.value)
    {
      Moved(i);
      ghost var r := MoveToFront(list, i);
      tail := MoveUp(node, front, tail, list, i);
      front := node;
      list := r;
    }

    /** The entries of a list of nodes whose values are `es`. */
    lemma ContentsOf(es: seq<Entry<K, V>>)
      requires |es| == |list| && forall j :: 0 <= j < |list| ==> es[j] == Entry(list[j].key, list[j].value)
      ensures Contents() == es
    {
    }

    lemma ContentsDistinct()
      requires Valid()
      ensures Distinct(Contents())
      ensures forall k :: k in searcher <==> HasKey(Contents(), k)
    {
      forall k ensures k in searcher <==> HasKey(Contents(), k) {
        if k in searcher {
          var i: nat :| i < |list| && list[i] == searcher[k];
          assert Contents()[i].key == k;
        }
        if i :| 0 <= i < |list| && Contents()[i].key == k { assert list[i] in list; }
      }
    }

    /** Touching node `i` moves its entry to the front. */
    method TouchEntry(node: Node<K, V>, ghost i: nat)
      requires Valid() && i < |list| && list[i] == node
      modifies this`front, this`tail, this`list, list
      ensures Valid() && Contents() == MoveToFront(old(Contents()), i) && node.value == old(node.value)
      ensures forall n :: n in list ==> n in old(list)
    {
      ghost var es := Contents();
      MoveToFrontIndex(es, i);
      MoveToFrontIndex(list, i);
      Touch(node, i);
      ContentsOf(MoveToFront(es, i));
    }

    /** `get`: the value of the key, which becomes the most recent. */
    method Get(key: K) returns (value: Option<V>)
      requires Valid()
      modifies this`front, this`tail, this`list, list
      ensures Valid() && Contents() == Used(old(Contents()), key)
      ensures forall n :: n in list ==> n in old(list)
      ensures value == if key in MapOf(old(Contents())) then Some(MapOf(old(Contents()))[key]) else None
    {
      ContentsDistinct();
      MapOfKeys(Contents(), key);
      if key !in searcher {
        return None;
      }
      var node := searcher[key];
      ghost var i := IndexOf(node);
      UsedAt(Contents(), i);
      MapOfAt(Contents(), i);
      TouchEntry(node, i);
      value := Some(node.value);
    }

    /** `put`: the entry is the most recent, the others keep their order. */
    method Put(key: K, value: V)
      requires Valid()
      modifies this, list
      ensures Valid() && Contents() == [Entry(key, value)] + Others(old(Contents()), key)
      ensures forall n :: n in list ==> n in old(list) || fresh(n)
    {
      ContentsDistinct();
      if key in searcher {
        Overwrite(searcher[key], value);
        return;
      }
      OthersAbsent(Contents(), key);
      Push(key, value);
    }

    method Overwrite(node: Node<K, V>, value: V)
      requires Valid() && node in list
      modifies this`front, this`tail, this`list, list
      ensures Valid() && Contents() == [Entry(node.key, value)] + Others(old(Contents()), node.key)
      ensures forall n :: n in list ==> n in old(list)
    {
      ghost var i := IndexOf(node);
      ContentsDistinct();
      OverwriteAt(Contents(), i, value);
      Assign(node, i, value);
      TouchEntry(node, i);
    }

    method Assign(node: Node<K, V>, ghost i: nat, value: V)
      requires Valid() && i < |list| && list[i] == node
      modifies node`value
      ensures Valid() && Contents() == old(Contents())[i := Entry(node.key, value)]
    {
      ghost var es := Contents();
      node.value := value;
      ContentsOf(es[i := Entry(node.key, value)]);
    }

    /** `lru_push` of a new node. */
    method Push(key: K, value: V)
      requires Valid() && key !in searcher
      modifies this, list
      ensures Valid() && Contents() == [Entry(key, value)] + old(Contents())
      ensures forall n :: n in list ==> n in old(list) || fresh(n)
    {
      ghost var es := Contents();
      var node := new Node(key, value);
      Attach(node);
      ContentsOf([Entry(key, value)] + es);
    }

    method Attach(node: Node<K, V>)
      requires Valid() && node.key !in searcher && node !in list
      modifies this, list, node
      ensures Valid() && list == [node] + old(list)
      ensures forall n :: n in list ==> n.value == old(n.value)
    {
      IndexedPush(searcher, list, node);
      if tail == null {
        tail := node;
      }
      ghost var r := [node] + list;
      assert At(r, 0) == node && At(r, |r| - 1) == tail;
      LinkFront(node, front, list);
      front := node;
      searcher := searcher[node.key := node];
      list := r;
    }

    /** `remove`. */
    method Remove(key: K)
      requires Valid()
      modifies this, list
      ensures Valid() && Contents() == Others(old(Contents()), key)
      ensures forall n :: n in list ==> n in old(list)
    {
      ContentsDistinct();
      if key in searcher {
        ghost var i := IndexOf(searcher[key]);
        OthersWithout(Contents(), i);
        Unlink(searcher[key], i);
      } else {
        OthersAbsent(Contents(), key);
      }
    }

    /** `lru_remove`. */
    method Unlink(node: Node<K, V>, ghost i: nat)
      requires Valid() && i < |list| && list[i] == node
      modifies this, list
      ensures Valid() && Contents() == Without(old(Contents()), i)
      ensures forall n :: n in list ==> n in old(list)
    {
      ghost var es := Contents();
      WithoutIndex(list, i);
      WithoutIndex(es, i);
      Drop(node, i);
      ContentsOf(Without(es, i));
    }

    method Drop(node: Node<K, V>, ghost i: nat)
      requires Valid() && i < |list| && list[i] == node
      modifies this, list
      ensures Valid() && list == Without(old(list), i)
      ensures forall n :: n in list ==> n in old(list) && n.value == old(n.value)
    {
      ghost var w := Without(list, i);
      IndexedWithout(searcher, list, i);
      WithoutEnds(list, i);
      front, tail := TakeOut(node, front, tail, list, i);
      searcher := searcher - {node.key};
      list := w;
    }

    /** `foreach`: most recent first, until the visitor says stop. */
    method ForEach(func: (K, V) -> bool) returns (seen: seq<Entry<K, V>>)
      requires Valid()
      ensures seen == VisitedFrom(Contents(), 0, func)
    {
      seen := Walk(front, list, func);
    }

    /** `foreach_reverse`: least recent first. */
    method ForEachReverse(func: (K, V) -> bool) returns (seen: seq<Entry<K, V>>)
      requires Valid()
      ensures seen == VisitedFrom(Reversed(Contents()), 0, func)
    {
      seen := WalkBack(tail, list, func);
    }

    /** `count`: the hash set is as large as the list. */
    method Count() returns (n: nat)
      requires Valid()
      ensures n == |Contents()|
    {
      n := |searcher.Keys|;
      ContentsDistinct();
      MapSize(Contents());
      forall k ensures k in searcher <==> k in MapOf(Contents()) { MapOfKeys(Contents(), k); }
      SameKeys(searcher, MapOf(Contents()));
    }

    method Destroy()
      modifies this
      ensures Valid() && Contents() == [] && list == []
    {
      searcher, front, tail, list := map[], null, null, [];
    }
  }

  // --- Runs of the class ---

  /** What a plain map answers to the operations: a `get` its binding, the others nothing. */
  ghost function AnswersOf<K, V>(ops: seq<Operation<K, V>>): seq<Option<V>> {
    if ops == [] then []
    else
      var n := |ops| - 1;
      var m := MapAfter(ops[..n]);
      AnswersOf(ops[..n]) + [if ops[n].GetOp? && ops[n].key in m then Some(m[ops[n].key]) else None]
  }

  /** One operation of a run. */
  method Apply<K(==), V>(cache: Cache<K, V>, op: Operation<K, V>, ghost before: seq<Operation<K, V>>) returns (answer: Option<V>)
    requires cache.Valid() && cache.Contents() == EntriesAfter(before)
    modifies cache, cache.list
    ensures cache.Valid() && cache.Contents() == EntriesAfter(before + [op])
    ensures forall n :: n in cache.list ==> n in old(cache.list) || fresh(n)
    ensures AnswersOf(before + [op]) == AnswersOf(before) + [answer]
  {
    assert (before + [op])[..|before|] == before;
    RunRefinesMap(before);
    answer := None;
    match op {
      case GetOp(key) => answer := cache.Get(key);
      case PutOp(key, value) => cache.Put(key, value);
      case RemoveOp(key) => cache.Remove(key);
    }
  }

  /** Any run: the entries are those of `EntriesAfter`, the answers those of a plain map. */
  method RunOn<K(==), V>(cache: Cache<K, V>, ops: seq<Operation<K, V>>, ghost before: seq<Operation<K, V>>)
    returns (answers: seq<Option<V>>)
    requires cache.Valid() && cache.Contents() == EntriesAfter(before)
    modifies cache, cache.list
    ensures cache.Valid() && cache.Contents() == EntriesAfter(before + ops)
    ensures forall n :: n in cache.list ==> n in old(cache.list) || fresh(n)
    ensures AnswersOf(before + ops) == AnswersOf(before) + answers
    decreases |ops|
  {
    if ops == [] {
      assert before + ops == before;
      return [];
    }
    assert before + ops == before + [ops[0]] + ops[1..];
    var first := Apply(cache, ops[0], before);
    assert forall i :: 0 <= i < |cache.list| ==> cache.list[i] in old(cache.list) || fresh(cache.list[i]);
    var later := RunOn(cache, ops[1..], before + [ops[0]]);
    Assoc(AnswersOf(before), first, later);
    answers := [first] + later;
  }

  lemma Assoc<T>(a: seq<T>, x: T, b: seq<T>)
    ensures a + [x] + b == a + ([x] + b)
  {
  }

  /** From a new cache. */
  method Run<K(==), V>(ops: seq<Operation<K, V>>) returns (cache: Cache<K, V>, answers: seq<Option<V>>)
    ensures fresh(cache) && cache.Valid() && cache.Contents() == EntriesAfter(ops)
    ensures answers == AnswersOf(ops)
  {
    cache := new Cache();
    answers := RunOn(cache, ops, []);
    assert [] + ops == ops;
  }
}
