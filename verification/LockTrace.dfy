/**
  The lock tracer and its deadlock check: `LockTrace` in deps/common/lang/mutex.cpp.
 */
module LockTrace {
  import opened Options

  type Thread = int
  type Mutex = nat

  /** `mLocks` (reduced to the thread), `mWaitLocks`, `mOwnLocks`, `mWaitTimes` and `mEnableRecurisives`. */
  datatype Maps = Maps(locks: map<Mutex, Thread>, waits: map<Thread, Mutex>, own: map<Thread, set<Mutex>>,
                       times: map<Mutex, int>, recursive: set<Mutex>)

  function Owned(s: Maps, t: Thread): set<Mutex> {
    if t in s.own then s.own[t] else {}
  }

  /** The two owner maps tell the same. */
  ghost predicate Consistent(s: Maps) {
    forall m, t :: m in Owned(s, t) <==> m in s.locks && s.locks[m] == t
  }

  // --- The check ---

  /** The recursive `deadlockCheck`: follow the waiting threads from `other`. */
  predicate Follow(s: Maps, owned: set<Mutex>, other: Thread, depth: int, max: int)
    decreases max - depth
  {
    if depth >= max then false
    else if other !in s.waits then false
    else
      var m := s.waits[other];
      if m in owned then true
      else if m !in s.locks then false
      else Follow(s, owned, s.locks[m], depth + 1, max)
  }

  /** The verdict of `deadlockCheck` for a thread about to wait for `m`, which `s` already records. */
  predicate Reports(s: Maps, m: Mutex, t: Thread, max: int) {
    if m !in s.locks then false
    else if s.locks[m] == t then m !in s.recursive
    else if t !in s.own || s.own[t] == {} then false
    else Follow(s, s.own[t], s.locks[m], 1, max)
  }

  // --- The wait-for graph ---

  /** The thread that `t` waits for. */
  function Blocker(s: Maps, t: Thread): Option<Thread> {
    if t in s.waits && s.waits[t] in s.locks then Some(s.locks[s.waits[t]]) else None
  }

  /** The thread reached from `t` by `n` edges. */
  function Hops(s: Maps, t: Thread, n: nat): Option<Thread>
    decreases n
  {
    if n == 0 then Some(t)
    else
      var u :- Blocker(s, t);
      Hops(s, u, n - 1)
  }

  lemma {:induction false} HopsAdd(s: Maps, t: Thread, a: nat, b: nat)
    requires Hops(s, t, a).Some?
    ensures Hops(s, t, a + b) == Hops(s, Hops(s, t, a).value, b)
    decreases a
  {
    if a > 0 { HopsAdd(s, Blocker(s, t).value, a - 1, b); }
  }

  /** `t` is reached from `from` by at least one and at most `max` edges. */
  ghost predicate Reaches(s: Maps, from: Thread, t: Thread, max: int) {
    exists n: nat :: 1 <= n <= max && Hops(s, from, n) == Some(t)
  }

  lemma ReachesStep(s: Maps, from: Thread, t: Thread, max: int)
    ensures Reaches(s, from, t, max) <==>
      max >= 1 && Blocker(s, from).Some? && (Blocker(s, from).value == t || Reaches(s, Blocker(s, from).value, t, max - 1))
  {
    OneHop(s, from);
    if Blocker(s, from).Some? {
      var u := Blocker(s, from).value;
      if Reaches(s, from, t, max) {
        var n: nat :| 1 <= n <= max && Hops(s, from, n) == Some(t);
        assert Hops(s, from, n) == Hops(s, u, n - 1);
        assert n == 1 || (1 <= n - 1 <= max - 1 && Hops(s, u, n - 1) == Some(t));
      }
      if Reaches(s, u, t, max - 1) {
        var n: nat :| 1 <= n <= max - 1 && Hops(s, u, n) == Some(t);
        assert Hops(s, from, n + 1) == Hops(s, u, n);
      }
    } else {
      assert forall n: nat :: n >= 1 ==> Hops(s, from, n) == None;
    }
  }

  lemma OneHop(s: Maps, t: Thread)
    ensures Hops(s, t, 1) == Blocker(s, t)
  {
    if Blocker(s, t).Some? { assert Hops(s, Blocker(s, t).value, 0) == Blocker(s, t); }
  }

  /** From `other` the check finds every way back to `t` within the depth left, and nothing else. */
  lemma {:induction false} FollowFinds(s: Maps, t: Thread, other: Thread, depth: int, max: int)
    requires Consistent(s)
    ensures Follow(s, Owned(s, t), other, depth, max) <==> Reaches(s, other, t, max - depth)
    decreases max - depth
  {
    ReachesStep(s, other, t, max - depth);
    if depth < max && other in s.waits {
      var m := s.waits[other];
      assert m in Owned(s, t) <==> m in s.locks && s.locks[m] == t;
      if m in s.locks && s.locks[m] != t { FollowFinds(s, t, s.locks[m], depth + 1, max); }
    }
  }

  /**
    The check is sound and complete up to its depth: it reports a thread that locks its own
    non-recursive mutex, or a cycle of at most `max` threads through it.
   */
  lemma ReportsCycles(s: Maps, m: Mutex, t: Thread, max: int)
    requires Consistent(s) && t in s.waits && s.waits[t] == m
    ensures Reports(s, m, t, max) <==>
      if Blocker(s, t) == Some(t) then m !in s.recursive else Reaches(s, t, t, max)
  {
    ReachesStep(s, t, t, max);
    if m in s.locks && s.locks[m] != t {
      var u := s.locks[m];
      FollowFinds(s, t, u, 1, max);
      if t !in s.own || s.own[t] == {} {
        assert Owned(s, t) == {};
        NothingOwned(s, u, 1, max);
      }
      ReachesStep(s, u, t, max - 1);
    }
  }

  lemma {:induction false} NothingOwned(s: Maps, other: Thread, depth: int, max: int)
    ensures !Follow(s, {}, other, depth, max)
    decreases max - depth
  {
    if depth < max && other in s.waits && s.waits[other] in s.locks {
      NothingOwned(s, s.locks[s.waits[other]], depth + 1, max);
    }
  }

  // --- With few waiting threads the depth bound does no harm ---

  /** The threads on the first `n` places of the path from `t`. */
  ghost function Path(s: Maps, t: Thread, n: nat): set<Thread> {
    if n == 0 then {}
    else Path(s, t, n - 1) + if Hops(s, t, n - 1).Some? then {Hops(s, t, n - 1).value} else {}
  }

  /** Short of the way back, a path repeats no thread. */
  lemma NoRepeat(s: Maps, t: Thread, n: nat, i: nat, j: nat)
    requires Hops(s, t, n) == Some(t) && i < j < n && Hops(s, t, i).Some? && Hops(s, t, j) == Hops(s, t, i)
    ensures Hops(s, t, n - (j - i)) == Some(t)
  {
    HopsAdd(s, t, i, n - j);
    HopsAdd(s, t, j, n - j);
  }

  lemma {:induction false} Defined(s: Maps, t: Thread, n: nat, i: nat)
    requires Hops(s, t, n).Some? && i <= n
    ensures Hops(s, t, i).Some?
    ensures i < n ==> Hops(s, t, i).value in s.waits
    decreases n
  {
    if i > 0 { Defined(s, Blocker(s, t).value, n - 1, i - 1); }
  }

  lemma {:induction false} NotOnPath(s: Maps, t: Thread, n: nat, u: Thread)
    requires forall i: nat :: i < n ==> Hops(s, t, i) != Some(u)
    ensures u !in Path(s, t, n)
  {
    if n > 0 { NotOnPath(s, t, n - 1, u); }
  }

  lemma {:induction false} PathSize(s: Maps, t: Thread, n: nat, k: nat)
    requires Hops(s, t, n) == Some(t) && k <= n
    requires forall i: nat :: 0 < i < n ==> Hops(s, t, i) != Some(t)
    ensures |Path(s, t, k)| == k && Path(s, t, k) <= s.waits.Keys
  {
    if k > 0 {
      PathSize(s, t, n, k - 1);
      Defined(s, t, n, k - 1);
      NewThread(s, t, n, k - 1);
    }
  }

  lemma NewThread(s: Maps, t: Thread, n: nat, k: nat)
    requires Hops(s, t, n) == Some(t) && k < n && Hops(s, t, k).Some?
    requires forall i: nat :: 0 < i < n ==> Hops(s, t, i) != Some(t)
    ensures Hops(s, t, k).value !in Path(s, t, k)
  {
    var u := Hops(s, t, k).value;
    forall i: nat | i < k ensures Hops(s, t, i) != Some(u) {
      if Hops(s, t, i) == Some(u) { NoRepeat(s, t, n, i, k); }
    }
    NotOnPath(s, t, k, u);
  }

  lemma SubsetSize<T>(a: set<T>, b: set<T>)
    requires a <= b
    ensures |a| <= |b|
  {
    assert b == a + (b - a) && a !! (b - a);
  }

  /** The shortest way back. */
  lemma {:induction false} ShortestWay(s: Maps, t: Thread, n: nat) returns (k: nat)
    requires n > 0 && Hops(s, t, n) == Some(t)
    ensures 0 < k <= n && Hops(s, t, k) == Some(t) && forall i: nat :: 0 < i < k ==> Hops(s, t, i) != Some(t)
  {
    k := n;
    if i: nat :| 0 < i < n && Hops(s, t, i) == Some(t) { k := ShortestWay(s, t, i); }
  }

  /** If no more than `max` threads wait, every cycle through the thread is reported, however long. */
  lemma CompleteForFewThreads(s: Maps, m: Mutex, t: Thread, max: int)
    requires Consistent(s) && t in s.waits && s.waits[t] == m && |s.waits.Keys| <= max && Blocker(s, t) != Some(t)
    ensures Reports(s, m, t, max) <==> exists n: nat :: n > 0 && Hops(s, t, n) == Some(t)
  {
    ReportsCycles(s, m, t, max);
    if n: nat :| n > 0 && Hops(s, t, n) == Some(t) {
      var k := ShortestWay(s, t, n);
      PathSize(s, t, k, k);
      SubsetSize(Path(s, t, k), s.waits.Keys);
      assert 1 <= k <= max;
    }
  }

  // --- The updates ---

  /** `insertLock`; an entry of `mLocks` that is there already stays. */
  function Inserted(s: Maps, m: Mutex, t: Thread): Maps {
    Maps(if m in s.locks then s.locks else s.locks[m := t],
         s.waits - {t}, s.own[t := Owned(s, t) + {m}],
         if m in s.times then s.times[m := s.times[m] - 1] else s.times, s.recursive)
  }

  function Unlocked(s: Maps, m: Mutex, t: Thread): Maps {
    s.(locks := s.locks - {m}, own := s.own[t := Owned(s, t) - {m}])
  }

  /**
    `checkLockTimes`; a mutex that has been waited for often is looked up with `operator[]`, which
    adds an entry of thread 0 when there is none.
   */
  function Timed(s: Maps, m: Mutex, max: int): Maps {
    if m !in s.times then s.(times := s.times[m := 1])
    else
      s.(times := s.times[m := s.times[m] + 1],
         locks := if s.times[m] >= max && m !in s.locks then s.locks[m := 0] else s.locks)
  }

  /** Locking keeps the maps consistent if and only if the mutex was free or the thread's own. */
  lemma InsertedConsistent(s: Maps, m: Mutex, t: Thread)
    requires Consistent(s)
    ensures Consistent(Inserted(s, m, t)) <==> m !in s.locks || s.locks[m] == t
  {
    var s' := Inserted(s, m, t);
    assert m in Owned(s', t);
    forall n, u ensures n in Owned(s', u) <==> n in Owned(s, u) || (n == m && u == t) { }
  }

  lemma UnlockedConsistent(s: Maps, m: Mutex, t: Thread)
    requires Consistent(s)
    ensures Consistent(Unlocked(s, m, t)) <==> m !in s.locks || s.locks[m] == t
  {
    var s' := Unlocked(s, m, t);
    forall n, u ensures n in Owned(s', u) <==> n in Owned(s, u) && !(n == m && u == t) { }
    if m in s.locks && s.locks[m] != t { assert m in Owned(s, s.locks[m]); }
  }

  /** Checking keeps them consistent unless it meets a mutex that is free and was often waited for. */
  lemma TimedConsistent(s: Maps, m: Mutex, max: int)
    requires Consistent(s)
    ensures Consistent(Timed(s, m, max)) <==> m in s.locks || m !in s.times || s.times[m] < max
  {
    var s' := Timed(s, m, max);
    assert forall t :: Owned(s', t) == Owned(s, t);
    if m !in s.locks && m in s.times && s.times[m] >= max { assert m in s'.locks && m !in Owned(s', 0); }
  }

  /** A recursive mutex locked twice is forgotten by the first unlock. */
  lemma RecursiveUnlockForgets(s: Maps, m: Mutex, t: Thread)
    requires Consistent(s) && m !in s.locks
    ensures var r := Unlocked(Inserted(Inserted(s, m, t), m, t), m, t);
      Consistent(r) && m !in r.locks && r.locks == s.locks
  {
    var a := Inserted(s, m, t);
    InsertedConsistent(s, m, t);
    InsertedConsistent(a, m, t);
    UnlockedConsistent(Inserted(a, m, t), m, t);
  }

  /**
    The unlock macro unlocks first and traces afterwards.  If thread `u` locks and traces in between, the
    tracer no longer knows the owner.
   */
  lemma LateUnlockLosesOwner(s: Maps, m: Mutex, t: Thread, u: Thread)
    requires Consistent(s) && m in s.locks && s.locks[m] == t && u != t
    ensures var r := Unlocked(Inserted(s, m, u), m, t);
      m in Owned(r, u) && m !in r.locks && !Consistent(r)
  {
    var r := Unlocked(Inserted(s, m, u), m, t);
    assert m in Owned(r, u);
  }

  // --- Whole runs of the lock, trylock and unlock macros ---

  /** Inside a macro: checked and about to lock `m`; locked or unlocked, and the tracer does not know yet. */
  datatype Phase = Between | Waits(m: Mutex) | Took(m: Mutex) | Gave(m: Mutex)

  /** Who really holds which mutex, the tracer's maps, and where each thread is. */
  datatype Traced = Traced(held: map<Mutex, Thread>, maps: Maps, phases: map<Thread, Phase>)

  datatype Move =
    | Check(t: Thread, m: Mutex)
    | Take(t: Thread)
    | TraceLock(t: Thread)
    | Refuse(t: Thread)
    | Give(t: Thread, m: Mutex)
    | TraceUnlock(t: Thread)

  function PhaseOf(s: Traced, t: Thread): Phase {
    if t in s.phases then s.phases[t] else Between
  }

  /** The maps after `check`. */
  function Checked(s: Maps, m: Mutex, t: Thread, max: int): Maps {
    Timed(s.(waits := s.waits[t := m]), m, max)
  }

  /** The macros on mutexes that are not recursive, step by step; a trylock that is refused traces nothing. */
  function Moved(s: Traced, mv: Move, max: int): Option<Traced> {
    var phase := PhaseOf(s, mv.t);
    match mv
    case Check(t, m) =>
      if phase != Between then None
      else Some(s.(maps := Checked(s.maps, m, t, max), phases := s.phases[t := Waits(m)]))
    case Take(t) =>
      if !phase.Waits? || phase.m in s.held then None
      else Some(s.(held := s.held[phase.m := t], phases := s.phases[t := Took(phase.m)]))
    case TraceLock(t) =>
      if !phase.Took? then None
      else Some(s.(maps := Inserted(s.maps, phase.m, t), phases := s.phases[t := Between]))
    case Refuse(t) =>
      if !phase.Waits? || phase.m !in s.held then None
      else Some(s.(phases := s.phases[t := Between]))
    case Give(t, m) =>
      if phase != Between || m !in s.held || s.held[m] != t then None
      else Some(s.(held := s.held - {m}, phases := s.phases[t := Gave(m)]))
    case TraceUnlock(t) =>
      if !phase.Gave? then None
      else Some(s.(maps := Unlocked(s.maps, phase.m, t), phases := s.phases[t := Between]))
  }

  function RunMoves(s: Traced, mvs: seq<Move>, max: int): Option<Traced> {
    if mvs == [] then Some(s)
    else
      var s' :- RunMoves(s, mvs[..|mvs| - 1], max);
      Moved(s', mvs[|mvs| - 1], max)
  }

  // The owners.

  /** The tracer should take `t` for the owner: it holds the mutex and has traced that, or has not traced its unlock. */
  predicate Owns(s: Traced, t: Thread, m: Mutex) {
    (m in s.held && s.held[m] == t && PhaseOf(s, t) != Took(m)) || PhaseOf(s, t) == Gave(m)
  }

  /** The maps are consistent and say who owns what. */
  ghost predicate Faithful(s: Traced) {
    && Consistent(s.maps)
    && (forall t, m :: Owns(s, t, m) <==> m in s.maps.locks && s.maps.locks[m] == t)
    && (forall t :: PhaseSane(s, t))
  }

  predicate PhaseSane(s: Traced, t: Thread) {
    match PhaseOf(s, t)
    case Took(m) => m in s.held && s.held[m] == t
    case Gave(m) => m !in s.held || s.held[m] != t
    case _ => true
  }

  /** No lock is traced while the unlock before it is not, and no often awaited mutex is checked that the tracer takes for free. */
  ghost predicate Prompt(s: Traced, mv: Move, max: int) {
    match mv
    case TraceLock(t) => PhaseOf(s, t).Took? ==> forall u :: PhaseOf(s, u) != Gave(PhaseOf(s, t).m)
    case Check(_, m) => m in s.maps.locks || m !in s.maps.times || s.maps.times[m] < max
    case _ => true
  }

  ghost predicate AllPrompt(s: Traced, mvs: seq<Move>, max: int) {
    if mvs == [] then true
    else
      var n := |mvs| - 1;
      AllPrompt(s, mvs[..n], max) && (RunMoves(s, mvs[..n], max).Some? ==> Prompt(RunMoves(s, mvs[..n], max).value, mvs[n], max))
  }

  ghost predicate FaithfulThroughout(s: Traced, mvs: seq<Move>, max: int) {
    var r := RunMoves(s, mvs, max);
    r.Some? && Faithful(r.value) && (mvs != [] ==> FaithfulThroughout(s, mvs[..|mvs| - 1], max))
  }

  lemma SameOwners(s: Traced, s': Traced)
    requires Faithful(s) && Consistent(s'.maps) && s'.maps.locks == s.maps.locks
    requires forall t, m :: Owns(s', t, m) <==> Owns(s, t, m)
    requires forall t :: PhaseSane(s', t)
    ensures Faithful(s')
  {
    forall t, m ensures Owns(s', t, m) <==> m in s'.maps.locks && s'.maps.locks[m] == t {
      assert Owns(s, t, m) <==> m in s.maps.locks && s.maps.locks[m] == t;
    }
  }

  lemma CheckExact(s: Traced, t: Thread, m: Mutex, max: int)
    requires Faithful(s) && PhaseOf(s, t) == Between
    ensures Faithful(Moved(s, Check(t, m), max).value) <==> Prompt(s, Check(t, m), max)
  {
    var s', w := Moved(s, Check(t, m), max).value, s.maps.(waits := s.maps.waits[t := m]);
    assert forall u :: Owned(w, u) == Owned(s.maps, u);
    assert Consistent(w);
    TimedConsistent(w, m, max);
    if Prompt(s, Check(t, m), max) {
      forall u ensures PhaseSane(s', u) { assert PhaseSane(s, u); }
      SameOwners(s, s');
    }
  }

  /** A mutex that is held by someone else's unfinished unlock is the only one that cannot be traced. */
  lemma TraceLockExact(s: Traced, t: Thread, max: int)
    requires Faithful(s) && PhaseOf(s, t).Took?
    ensures Faithful(Moved(s, TraceLock(t), max).value) <==> Prompt(s, TraceLock(t), max)
  {
    var m, s' := PhaseOf(s, t).m, Moved(s, TraceLock(t), max).value;
    InsertedConsistent(s.maps, m, t);
    assert PhaseSane(s, t) && s.held[m] == t;
    if m in s.maps.locks {
      var u := s.maps.locks[m];
      assert Owns(s, u, m) && u != t && PhaseOf(s, u) == Gave(m);
    }
    if u :| PhaseOf(s, u) == Gave(m) { assert Owns(s, u, m); }
    forall u ensures PhaseSane(s', u) { assert PhaseSane(s, u); }
    if m !in s.maps.locks {
      forall u, n ensures Owns(s', u, n) <==> n in s'.maps.locks && s'.maps.locks[n] == u {
        assert Owns(s, u, n) <==> n in s.maps.locks && s.maps.locks[n] == u;
      }
    }
  }

  lemma TraceUnlockKeeps(s: Traced, t: Thread, max: int)
    requires Faithful(s) && PhaseOf(s, t).Gave?
    ensures Faithful(Moved(s, TraceUnlock(t), max).value)
  {
    var m, s' := PhaseOf(s, t).m, Moved(s, TraceUnlock(t), max).value;
    assert Owns(s, t, m);
    UnlockedConsistent(s.maps, m, t);
    forall u ensures PhaseSane(s', u) { assert PhaseSane(s, u); }
    assert PhaseSane(s, t);
    forall u, n ensures Owns(s', u, n) <==> n in s'.maps.locks && s'.maps.locks[n] == u {
      assert Owns(s, u, n) <==> n in s.maps.locks && s.maps.locks[n] == u;
    }
  }

  lemma RealKeeps(s: Traced, mv: Move, max: int)
    requires Faithful(s) && Moved(s, mv, max).Some? && (mv.Take? || mv.Give? || mv.Refuse?)
    ensures Faithful(Moved(s, mv, max).value)
  {
    var s' := Moved(s, mv, max).value;
    forall u ensures PhaseSane(s', u) { assert PhaseSane(s, u); }
    SameOwners(s, s');
  }

  /**
    Over whole runs: the tracer knows every owner throughout, if and only if no thread traces a lock
    before the unlock that made room for it has been traced, or checks an often awaited mutex that the
    tracer takes for free.
   */
  lemma {:induction false} RunsFaithful(s: Traced, mvs: seq<Move>, max: int)
    requires Faithful(s) && RunMoves(s, mvs, max).Some?
    ensures FaithfulThroughout(s, mvs, max) <==> AllPrompt(s, mvs, max)
  {
    if mvs != [] {
      var n := |mvs| - 1;
      RunsFaithful(s, mvs[..n], max);
      if AllPrompt(s, mvs[..n], max) {
        var before := RunMoves(s, mvs[..n], max).value;
        match mvs[n]
        case Check(t, m) => CheckExact(before, t, m, max);
        case TraceLock(t) => TraceLockExact(before, t, max);
        case TraceUnlock(t) => TraceUnlockKeeps(before, t, max);
        case _ => RealKeeps(before, mvs[n], max);
      }
    }
  }

  // The waiting threads.

  /** The mutex that `t` has checked and not yet traced. */
  function Wanted(s: Traced, t: Thread): Option<Mutex> {
    match PhaseOf(s, t)
    case Waits(m) => Some(m)
    case Took(m) => Some(m)
    case _ => None
  }

  function Wanting(s: Traced, m: Mutex): set<Thread> {
    set t | t in s.phases && Wanted(s, t) == Some(m)
  }

  function TimesOf(s: Maps, m: Mutex): int {
    if m in s.times then s.times[m] else 0
  }

  /** The maps record exactly the threads between their check and their traced lock, and count them. */
  ghost predicate Recorded(s: Traced) {
    WaitsRecorded(s) && TimesRecorded(s)
  }

  ghost predicate WaitsRecorded(s: Traced) {
    forall t :: (if t in s.maps.waits then Some(s.maps.waits[t]) else None) == Wanted(s, t)
  }

  ghost predicate TimesRecorded(s: Traced) {
    forall m :: TimesOf(s.maps, m) == |Wanting(s, m)| && (Wanting(s, m) != {} ==> m in s.maps.times)
  }

  ghost predicate RecordedThroughout(s: Traced, mvs: seq<Move>, max: int) {
    var r := RunMoves(s, mvs, max);
    r.Some? && Recorded(r.value) && (mvs != [] ==> RecordedThroughout(s, mvs[..|mvs| - 1], max))
  }

  lemma WantingMoves(s: Traced, s': Traced, t: Thread, m: Mutex)
    requires forall u :: u != t ==> PhaseOf(s', u) == PhaseOf(s, u)
    requires s'.phases == s.phases[t := PhaseOf(s', t)]
    ensures |Wanting(s', m)| == |Wanting(s, m)| - (if Wanted(s, t) == Some(m) then 1 else 0) + (if Wanted(s', t) == Some(m) then 1 else 0)
    ensures t in Wanting(s, m) <==> Wanted(s, t) == Some(m)
  {
    var rest := Wanting(s, m) - {t};
    assert forall u :: u in Wanting(s', m) - {t} <==> u in rest;
    assert Wanting(s', m) - {t} == rest;
    assert Wanting(s, m) == if Wanted(s, t) == Some(m) then rest + {t} else rest;
    assert Wanting(s', m) == if Wanted(s', t) == Some(m) then rest + {t} else rest;
  }

  lemma RecordExact(s: Traced, mv: Move, max: int)
    requires Recorded(s) && Moved(s, mv, max).Some?
    ensures Recorded(Moved(s, mv, max).value) <==> !mv.Refuse?
  {
    var s', t := Moved(s, mv, max).value, mv.t;
    if mv.Refuse? {
      assert Wanted(s, t) != None && Wanted(s', t) == None && s'.maps == s.maps;
      assert (if t in s.maps.waits then Some(s.maps.waits[t]) else None) == Wanted(s, t);
    } else {
      WaitsKept(s, s', mv, max);
      forall m: Mutex ensures TimesOf(s'.maps, m) == |Wanting(s', m)| && (Wanting(s', m) != {} ==> m in s'.maps.times) {
        assert TimesOf(s.maps, m) == |Wanting(s, m)| && (Wanting(s, m) != {} ==> m in s.maps.times);
        TimeKept(s, s', mv, max, m);
      }
    }
  }

  lemma WaitsKept(s: Traced, s': Traced, mv: Move, max: int)
    requires WaitsRecorded(s) && Moved(s, mv, max) == Some(s') && !mv.Refuse?
    ensures WaitsRecorded(s')
  {
    forall u ensures (if u in s'.maps.waits then Some(s'.maps.waits[u]) else None) == Wanted(s', u) {
      assert (if u in s.maps.waits then Some(s.maps.waits[u]) else None) == Wanted(s, u);
    }
  }

  /** What a move does to the count of `m`. */
  lemma TimeMoves(s: Traced, s': Traced, mv: Move, max: int, m: Mutex)
    requires Moved(s, mv, max) == Some(s')
    ensures TimesOf(s'.maps, m) == TimesOf(s.maps, m) +
      if mv.Check? && mv.m == m then 1 else if mv.TraceLock? && PhaseOf(s, mv.t) == Took(m) && m in s.maps.times then -1 else 0
    ensures m in s'.maps.times <==> m in s.maps.times || (mv.Check? && mv.m == m)
  {
  }

  /** And whether the thread wants it. */
  lemma WantedMoves(s: Traced, s': Traced, mv: Move, max: int, m: Mutex)
    requires Moved(s, mv, max) == Some(s') && !mv.Refuse?
    ensures Wanted(s', mv.t) == Some(m) <==>
      (mv.Check? && mv.m == m) || (Wanted(s, mv.t) == Some(m) && !(mv.TraceLock? && PhaseOf(s, mv.t) == Took(m)))
    ensures mv.Check? && mv.m == m ==> Wanted(s, mv.t) != Some(m)
    ensures mv.TraceLock? && PhaseOf(s, mv.t) == Took(m) ==> Wanted(s, mv.t) == Some(m)
    ensures s'.phases == s.phases[mv.t := PhaseOf(s', mv.t)] && forall u :: u != mv.t ==> PhaseOf(s', u) == PhaseOf(s, u)
  {
  }

  lemma TimeKept(s: Traced, s': Traced, mv: Move, max: int, m: Mutex)
    requires Moved(s, mv, max) == Some(s') && !mv.Refuse?
    requires TimesOf(s.maps, m) == |Wanting(s, m)| && (Wanting(s, m) != {} ==> m in s.maps.times)
    ensures TimesOf(s'.maps, m) == |Wanting(s', m)| && (Wanting(s', m) != {} ==> m in s'.maps.times)
  {
    TimeMoves(s, s', mv, max, m);
    WantedMoves(s, s', mv, max, m);
    WantingMoves(s, s', mv.t, m);
    assert Wanting(s', m) != {} ==> |Wanting(s', m)| > 0;
  }

  predicate NoneRefused(mvs: seq<Move>) {
    mvs == [] || (NoneRefused(mvs[..|mvs| - 1]) && !mvs[|mvs| - 1].Refuse?)
  }

  /**
    Over whole runs: `mWaitLocks` holds exactly the threads between their check and their traced lock,
    and `mWaitTimes` counts them, if and only if no trylock is refused.
   */
  lemma {:induction false} RunsRecorded(s: Traced, mvs: seq<Move>, max: int)
    requires Recorded(s) && RunMoves(s, mvs, max).Some?
    ensures RecordedThroughout(s, mvs, max) <==> NoneRefused(mvs)
  {
    if mvs != [] {
      var n := |mvs| - 1;
      RunsRecorded(s, mvs[..n], max);
      if NoneRefused(mvs[..n]) { RecordExact(RunMoves(s, mvs[..n], max).value, mvs[n], max); }
    }
  }

  /** Nothing is locked. */
  lemma StartsFaithful(recursive: set<Mutex>)
    ensures var s := Traced(map[], Maps(map[], map[], map[], map[], recursive), map[]); Faithful(s) && Recorded(s)
  {
    var s := Traced(map[], Maps(map[], map[], map[], map[], recursive), map[]);
    assert forall m :: Wanting(s, m) == {};
  }

  /** A free mutex: after the lock macro the thread holds it and the maps say so, after the unlock macro neither. */
  lemma LockThenUnlock(s: Traced, t: Thread, m: Mutex, max: int)
    requires PhaseOf(s, t) == Between && m !in s.held && m !in s.maps.locks
    ensures var s1 := Moved(s, Check(t, m), max);
      s1.Some? && var s2 := Moved(s1.value, Take(t), max);
      s2.Some? && var s3 := Moved(s2.value, TraceLock(t), max);
      && s3.Some? && s3.value.held == s.held[m := t] && PhaseOf(s3.value, t) == Between
      && m in Owned(s3.value.maps, t) && t !in s3.value.maps.waits
      && var s4 := Moved(s3.value, Give(t, m), max);
      s4.Some? && var s5 := Moved(s4.value, TraceUnlock(t), max);
      && s5.Some? && s5.value.held == s.held && PhaseOf(s5.value, t) == Between
      && m !in s5.value.maps.locks && m !in Owned(s5.value.maps, t)
  {
    assert s.held[m := t] - {m} == s.held;
  }

  // What a report means.

  /** On a cycle of the maps every thread really waits, for a mutex that the next one really holds. */
  lemma CyclesAreReal(s: Traced, t: Thread, n: nat, i: nat)
    requires Faithful(s) && Recorded(s) && Hops(s.maps, t, n) == Some(t) && i < n
    ensures Hops(s.maps, t, i).Some? && Hops(s.maps, t, i + 1).Some?
    ensures var u, v := Hops(s.maps, t, i).value, Hops(s.maps, t, i + 1).value;
      PhaseOf(s, u).Waits? && PhaseOf(s, u).m in s.held && s.held[PhaseOf(s, u).m] == v
  {
    Defined(s.maps, t, n, i);
    Defined(s.maps, t, n, i + 1);
    var u := Hops(s.maps, t, i).value;
    HopsAdd(s.maps, t, i, 1);
    OneHop(s.maps, u);
    var v := Hops(s.maps, t, i + 1).value;
    if i + 1 < n { Defined(s.maps, t, n, i + 1); } else { Defined(s.maps, t, n, 0); }
    assert v in s.maps.waits && Wanted(s, v).Some?;
    var m := s.maps.waits[u];
    assert Wanted(s, u) == Some(m) && s.maps.locks[m] == v;
    assert Owns(s, v, m) && PhaseSane(s, u);
  }

  /** What the check reports when it is about to let `t` wait, is a thread that waits for its own mutex or a cycle of waiting threads. */
  lemma ReportsAreReal(s: Traced, t: Thread, m: Mutex, max: int) returns (n: nat)
    requires Faithful(s) && Recorded(s) && PhaseOf(s, t) == Waits(m) && Reports(s.maps, m, t, max)
    ensures n > 0 && Hops(s.maps, t, n) == Some(t)
    ensures forall i {:trigger Hops(s.maps, t, i)} :: 0 <= i < n ==>
      Hops(s.maps, t, i).Some? && PhaseOf(s, Hops(s.maps, t, i).value).Waits?
  {
    assert Wanted(s, t) == Some(m);
    ReportsCycles(s.maps, m, t, max);
    if Blocker(s.maps, t) == Some(t) {
      n := 1;
      OneHop(s.maps, t);
    } else {
      n :| 1 <= n <= max && Hops(s.maps, t, n) == Some(t);
    }
    forall i | 0 <= i < n
      ensures Hops(s.maps, t, i).Some? && PhaseOf(s, Hops(s.maps, t, i).value).Waits?
    {
      CyclesAreReal(s, t, n, i);
    }
  }

  /** After a refused trylock the thread is still recorded as waiting, and a deadlock is reported where there is none. */
  lemma RefusedMisleads(s: Traced, t: Thread, u: Thread, m: Mutex, n: Mutex, max: int)
    requires Faithful(s) && Recorded(s) && max >= 2 && t != u
    requires PhaseOf(s, t) == Waits(m) && m in s.held && s.held[m] == u && PhaseOf(s, u) == Between
    requires n in s.held && s.held[n] == t
    ensures var s' := Moved(s, Refuse(t), max).value;
      PhaseOf(s', t) == Between && Reports(s'.maps.(waits := s'.maps.waits[u := n]), n, u, max)
  {
    assert Wanted(s, t) == Some(m);
    assert Owns(s, u, m) && Owns(s, t, n);
    assert m in Owned(s.maps, u);
  }

  /** The tracer's static members. */
  class Tracer {
    var locks: map<Mutex, Thread>
    var waits: map<Thread, Mutex>
    var own: map<Thread, set<Mutex>>
    var times: map<Mutex, int>
    var recursive: set<Mutex>
    const maxBlock: int

    function View(): Maps
      reads this
    {
      Maps(locks, waits, own, times, recursive)
    }

    constructor (maxBlock: int)
      ensures View() == Maps(map[], map[], map[], map[], {}) && Consistent(View()) && this.maxBlock == maxBlock
    {
      locks, waits, own, times, recursive := map[], map[], map[], map[], {};
      this.maxBlock := maxBlock;
    }

    /** `check`: the verdict is about the maps with the new wait recorded. */
    method Check(m: Mutex, t: Thread) returns (found: bool)
      modifies this`locks, this`waits, this`times
      ensures var s := old(View()).(waits := old(waits)[t := m]);
        && View() == Timed(s, m, maxBlock)
        && found == Reports(s, m, t, maxBlock)
        && (Consistent(old(View())) && (m in old(locks) || m !in old(times) || old(times[m]) < maxBlock) ==> Consistent(View()))
    {
      found := DeadlockCheck(m, t);
      if m !in times {
        times := times[m := 1];
      } else {
        var lockTimes := times[m];
        times := times[m := lockTimes + 1];
        if lockTimes >= maxBlock && m !in locks {
          locks := locks[m := 0];
        }
      }
      ghost var s := old(View()).(waits := old(waits)[t := m]);
      if Consistent(old(View())) {
        assert forall u :: Owned(s, u) == Owned(old(View()), u);
        TimedConsistent(s, m, maxBlock);
      }
    }

    method DeadlockCheck(m: Mutex, t: Thread) returns (found: bool)
      modifies this`waits
      ensures waits == old(waits)[t := m] && found == Reports(View(), m, t, maxBlock)
    {
      waits := waits[t := m];
      if m !in locks {
        return false;
      }
      var other := locks[m];
      if t == other {
        return m !in recursive;
      }
      if t !in own || own[t] == {} {
        return false;
      }
      found := Follow(View(), own[t], other, 1, maxBlock);
    }

    method InsertLock(m: Mutex, t: Thread)
      modifies this
      ensures View() == Inserted(old(View()), m, t)
      ensures Consistent(old(View())) ==> (Consistent(View()) <==> m !in old(locks) || old(locks[m]) == t)
    {
      ghost var s := View();
      if m !in locks {
        locks := locks[m := t];
      }
      waits := waits - {t};
      own := own[t := (if t in own then own[t] else {}) + {m}];
      if m in times {
        times := times[m := times[m] - 1];
      }
      if Consistent(s) { InsertedConsistent(s, m, t); }
    }

    /** A mutex that is locked already is left alone. */
    method TryLock(m: Mutex, t: Thread)
      modifies this
      ensures View() == if m in old(locks) then old(View()) else Inserted(old(View()), m, t)
      ensures Consistent(old(View())) ==> Consistent(View())
    {
      if m in locks {
        return;
      }
      InsertLock(m, t);
    }

    method Unlock(m: Mutex, t: Thread)
      modifies this`locks, this`own
      ensures View() == Unlocked(old(View()), m, t)
      ensures Consistent(old(View())) ==> (Consistent(View()) <==> m !in old(locks) || old(locks[m]) == t)
    {
      ghost var s := View();
      locks := locks - {m};
      own := own[t := (if t in own then own[t] else {}) - {m}];
      if Consistent(s) { UnlockedConsistent(s, m, t); }
    }
  }
}
