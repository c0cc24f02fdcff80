/**
  Event stages and the thread pools that run them: deps/common/seda/stage.cpp and
  deps/common/seda/thread_pool.cpp.  Each step is one critical section of one thread; a thread that
  is between two critical sections of a call remembers it in `base` and `call`.
 */
module StagePool {
  import opened Options

  type StageId = nat
  type PoolId = nat
  type Event = nat

  /**
    `queue` is `event_list_` and `ref` is `event_ref_`.  The rest is history: `parked` counts the
    queued events that were added while the stage was not connected, `dropped` those whose
    scheduling `connect` gave up, `added` and `taken` list all events that came in and went out.
   */
  datatype Stage = Stage(queue: seq<Event>, connected: bool, ref: int, pool: Option<PoolId>,
                         parked: nat, dropped: nat, added: seq<Event>, taken: seq<Event>)

  datatype Pool = Pool(run: seq<StageId>, idles: int)

  /** Where a thread's main loop is; `Outside` is a thread of no pool, `Notified` one that was signalled. */
  datatype Base = Outside | Ready | Waiting | Notified | Popped(s: StageId) | Handling(s: StageId)

  /** What a thread still has to do of a call it made. */
  datatype Call =
    | NoCall
    | Scheduling(t: StageId, left: nat)
    | Connecting(t: StageId, backlog: nat)
    | Draining(t: StageId, signalled: bool)

  datatype Thread = Thread(home: Option<PoolId>, base: Base, call: Call)

  datatype State = State(stages: map<StageId, Stage>, pools: map<PoolId, Pool>, threads: seq<Thread>)

  /** Threads are addressed by index; `wake` is the thread a signal reaches. */
  datatype Step =
    | SetPool(t: StageId, p: PoolId)
    | AddEvent(i: nat, t: StageId, e: Event)
    | Connect(i: nat, t: StageId)
    | CheckConnected(i: nat)
    | Schedule(i: nat, wake: Option<nat>)
    | Disconnect(i: nat, t: StageId)
    | Recheck(i: nat)
    | Fetch(i: nat)
    | Remove(i: nat)
    | Release(i: nat, wake: Option<nat>)

  /** A thread of no pool between calls, or a worker inside a handler. */
  predicate Free(th: Thread) {
    th.call == NoCall && (th.base.Outside? || th.base.Handling?)
  }

  predicate DrainedBy(s: State, t: StageId, i: nat) {
    i < |s.threads| && s.threads[i].call.Draining? && s.threads[i].call.t == t
  }

  predicate BeingDrained(s: State, t: StageId) {
    exists i :: 0 <= i < |s.threads| && DrainedBy(s, t, i)
  }

  // --- The steps; `None` when a step cannot be taken ---

  /** `set_pool`, as the source guards it. */
  function RawSetPool(s: State, t: StageId, p: PoolId): Option<State> {
    if t !in s.stages || p !in s.pools || s.stages[t].connected then None
    else Some(s.(stages := s.stages[t := s.stages[t].(pool := Some(p))]))
  }

  /** The entries of stage `t` on the run queue of its pool. */
  function Runs(s: State, t: StageId): nat
    requires t in s.stages
  {
    var p := s.stages[t].pool;
    if p.None? || p.value !in s.pools then 0 else multiset(s.pools[p.value].run)[t]
  }

  /** `set_pool` that leaves no entry behind on the run queue of another pool. */
  function DoSetPool(s: State, t: StageId, p: PoolId): Option<State> {
    if t in s.stages && s.stages[t].pool != Some(p) && Runs(s, t) > 0 then None else RawSetPool(s, t, p)
  }

  /** First half of `add_event`. */
  function DoAddEvent(s: State, i: nat, t: StageId, e: Event): Option<State> {
    if i >= |s.threads| || t !in s.stages || !Free(s.threads[i]) then None
    else
      var st := s.stages[t];
      var st' := st.(queue := st.queue + [e], added := st.added + [e]);
      if st.connected then
        Some(s.(stages := s.stages[t := st'.(ref := st.ref + 1)],
                threads := s.threads[i := s.threads[i].(call := Scheduling(t, 1))]))
      else
        Some(s.(stages := s.stages[t := st'.(parked := st.parked + 1)]))
  }

  /** First half of `connect`, after a successful `initialize`, when no `disconnect` is waiting. */
  function DoConnect(s: State, i: nat, t: StageId): Option<State> {
    if BeingDrained(s, t) then None else RawConnect(s, i, t)
  }

  /** The same, as the source guards it. */
  function RawConnect(s: State, i: nat, t: StageId): Option<State> {
    if i >= |s.threads| || t !in s.stages || !Free(s.threads[i])
       || s.stages[t].connected || s.stages[t].pool.None? then None
    else
      var st := s.stages[t];
      Some(s.(stages := s.stages[t := st.(connected := true, ref := |st.queue|, parked := 0)],
              threads := s.threads[i := s.threads[i].(call := if st.queue == [] then NoCall else Connecting(t, |st.queue|))]))
  }

  /** `connect` reads `connected_` again, without the mutex, before it schedules the backlog. */
  function DoCheckConnected(s: State, i: nat): Option<State> {
    if i >= |s.threads| || !s.threads[i].call.Connecting? || s.threads[i].call.t !in s.stages then None
    else
      var t, backlog := s.threads[i].call.t, s.threads[i].call.backlog;
      var st := s.stages[t];
      if st.connected then
        Some(s.(threads := s.threads[i := s.threads[i].(call := Scheduling(t, backlog))]))
      else
        Some(s.(stages := s.stages[t := st.(dropped := st.dropped + backlog)],
                threads := s.threads[i := s.threads[i].(call := NoCall)]))
  }

  /** A signal to a pool wakes one sleeping worker, if there is one. */
  predicate Wakes(threads: seq<Thread>, p: PoolId, wake: Option<nat>) {
    match wake
    case Some(j) => j < |threads| && threads[j].home == Some(p) && threads[j].base == Waiting
    case None => forall j :: 0 <= j < |threads| ==> !(threads[j].home == Some(p) && threads[j].base == Waiting)
  }

  /** `Threadpool::schedule`. */
  function DoSchedule(s: State, i: nat, wake: Option<nat>): Option<State> {
    if i >= |s.threads| || !s.threads[i].call.Scheduling? || s.threads[i].call.left == 0
       || s.threads[i].call.t !in s.stages || s.stages[s.threads[i].call.t].pool.None? then None
    else
      var t, left, p := s.threads[i].call.t, s.threads[i].call.left, s.stages[s.threads[i].call.t].pool.value;
      if p !in s.pools then None
      else
        var pool := s.pools[p];
        var pools := s.pools[p := pool.(run := pool.run + [t])];
        var threads := s.threads[i := s.threads[i].(call := if left == 1 then NoCall else Scheduling(t, left - 1))];
        if (pool.run != [] || s.threads[i].home != Some(p)) && pool.idles > 0 then
          if !Wakes(threads, p, wake) then None
          else
            Some(s.(pools := pools,
                    threads := if wake.Some? then threads[wake.value := threads[wake.value].(base := Notified)] else threads))
        else if wake.Some? then None
        else Some(s.(pools := pools, threads := threads))
  }

  /** The test of `event_ref_` in `disconnect`, and what follows when it is zero. */
  function Settle(s: State, i: nat, t: StageId): State
    requires i < |s.threads| && t in s.stages
  {
    if s.stages[t].ref > 0 then
      s.(threads := s.threads[i := s.threads[i].(call := Draining(t, false))])
    else
      s.(stages := s.stages[t := s.stages[t].(pool := None)],
         threads := s.threads[i := s.threads[i].(call := NoCall)])
  }

  function DoDisconnect(s: State, i: nat, t: StageId): Option<State> {
    if i >= |s.threads| || t !in s.stages || !Free(s.threads[i]) || !s.stages[t].connected then None
    else Some(Settle(s.(stages := s.stages[t := s.stages[t].(connected := false)]), i, t))
  }

  /** Waking up in `disconnect`, signalled or not. */
  function DoRecheck(s: State, i: nat): Option<State> {
    if i >= |s.threads| || !s.threads[i].call.Draining? || s.threads[i].call.t !in s.stages then None
    else Some(Settle(s, i, s.threads[i].call.t))
  }

  /** A worker takes the run mutex: it goes to sleep, or takes the first stage. */
  function DoFetch(s: State, i: nat): Option<State> {
    if i >= |s.threads| || !(s.threads[i].base.Ready? || s.threads[i].base.Waiting? || s.threads[i].base.Notified?)
       || s.threads[i].home.None? || s.threads[i].home.value !in s.pools then None
    else
      var th, p := s.threads[i], s.threads[i].home.value;
      var pool := s.pools[p];
      var awake := pool.(idles := if th.base.Ready? then pool.idles else pool.idles - 1);
      if pool.run == [] then
        Some(s.(pools := s.pools[p := awake.(idles := awake.idles + 1)], threads := s.threads[i := th.(base := Waiting)]))
      else
        Some(s.(pools := s.pools[p := awake.(run := pool.run[1..])], threads := s.threads[i := th.(base := Popped(pool.run[0]))]))
  }

  /** `remove_event`, which asserts that the queue is not empty. */
  function DoRemove(s: State, i: nat): Option<State> {
    if i >= |s.threads| || !s.threads[i].base.Popped? || s.threads[i].base.s !in s.stages then None
    else
      var t := s.threads[i].base.s;
      var st := s.stages[t];
      if st.queue == [] then None
      else
        Some(s.(stages := s.stages[t := st.(queue := st.queue[1..], taken := st.taken + [st.queue[0]])],
                threads := s.threads[i := s.threads[i].(base := Handling(t))]))
  }

  /** A signal to a stage wakes the thread that waits in `disconnect`, if there is one. */
  predicate WakesDrainer(threads: seq<Thread>, t: StageId, wake: Option<nat>) {
    match wake
    case Some(j) => j < |threads| && threads[j].call == Draining(t, false)
    case None => forall j :: 0 <= j < |threads| ==> threads[j].call != Draining(t, false)
  }

  /** `release_event`, at the end of a handler. */
  function DoRelease(s: State, i: nat, wake: Option<nat>): Option<State> {
    if i >= |s.threads| || !s.threads[i].base.Handling? || s.threads[i].call != NoCall
       || s.threads[i].base.s !in s.stages then None
    else
      var t := s.threads[i].base.s;
      var st := s.stages[t].(ref := s.stages[t].ref - 1);
      var stages := s.stages[t := st];
      var threads := s.threads[i := s.threads[i].(base := Ready)];
      if !st.connected && st.ref == 0 then
        if !WakesDrainer(threads, t, wake) then None
        else
          Some(s.(stages := stages,
                  threads := if wake.Some? then threads[wake.value := threads[wake.value].(call := Draining(t, true))] else threads))
      else if wake.Some? then None
      else Some(s.(stages := stages, threads := threads))
  }

  function Do(s: State, step: Step): Option<State> {
    match step
    case SetPool(t, p) => DoSetPool(s, t, p)
    case AddEvent(i, t, e) => DoAddEvent(s, i, t, e)
    case Connect(i, t) => DoConnect(s, i, t)
    case CheckConnected(i) => DoCheckConnected(s, i)
    case Schedule(i, wake) => DoSchedule(s, i, wake)
    case Disconnect(i, t) => DoDisconnect(s, i, t)
    case Recheck(i) => DoRecheck(s, i)
    case Fetch(i) => DoFetch(s, i)
    case Remove(i) => DoRemove(s, i)
    case Release(i, wake) => DoRelease(s, i, wake)
  }

  function Run(s: State, steps: seq<Step>): Option<State> {
    if steps == [] then Some(s)
    else
      var s' :- Run(s, steps[..|steps| - 1]);
      Do(s', steps[|steps| - 1])
  }

  // --- Counting threads ---

  datatype Measure =
    | Pending(t: StageId) | PoppedFor(t: StageId) | HandlingFor(t: StageId)
    | Drainers(t: StageId) | Asleep(p: PoolId) | Idle(p: PoolId) | Workers(p: PoolId)

  function One(b: bool): nat {
    if b then 1 else 0
  }

  /** What one thread contributes to a measure. */
  function Weight(m: Measure, th: Thread): nat {
    match m
    case Pending(t) =>
      (match th.call
       case Scheduling(u, left) => if u == t then left else 0
       case Connecting(u, backlog) => if u == t then backlog else 0
       case _ => 0)
    case PoppedFor(t) => One(th.base == Popped(t))
    case HandlingFor(t) => One(th.base == Handling(t))
    case Drainers(t) => One(th.call.Draining? && th.call.t == t)
    case Asleep(p) => One(th.home == Some(p) && th.base.Waiting?)
    case Idle(p) => One(th.home == Some(p) && (th.base.Waiting? || th.base.Notified?))
    case Workers(p) => One(th.home == Some(p))
  }

  function Sum(m: Measure, threads: seq<Thread>): nat {
    if threads == [] then 0 else Weight(m, threads[0]) + Sum(m, threads[1..])
  }

  lemma {:induction false} SumUpdate(m: Measure, threads: seq<Thread>, i: nat, th: Thread)
    requires i < |threads|
    ensures Sum(m, threads[i := th]) == Sum(m, threads) - Weight(m, threads[i]) + Weight(m, th)
    ensures Weight(m, threads[i]) <= Sum(m, threads)
  {
    if i == 0 {
      assert threads[0 := th][1..] == threads[1..];
    } else {
      assert threads[i := th][1..] == threads[1..][i - 1 := th];
      SumUpdate(m, threads[1..], i - 1, th);
    }
  }

  /** The measures of one stage after thread `i` has changed to `th`. */
  lemma StageSums(t: StageId, threads: seq<Thread>, i: nat, th: Thread)
    requires i < |threads|
    ensures Sum(Pending(t), threads[i := th]) == Sum(Pending(t), threads) - Weight(Pending(t), threads[i]) + Weight(Pending(t), th)
    ensures Sum(PoppedFor(t), threads[i := th]) == Sum(PoppedFor(t), threads) - Weight(PoppedFor(t), threads[i]) + Weight(PoppedFor(t), th)
    ensures Sum(HandlingFor(t), threads[i := th]) == Sum(HandlingFor(t), threads) - Weight(HandlingFor(t), threads[i]) + Weight(HandlingFor(t), th)
    ensures Sum(Drainers(t), threads[i := th]) == Sum(Drainers(t), threads) - Weight(Drainers(t), threads[i]) + Weight(Drainers(t), th)
  {
    SumUpdate(Pending(t), threads, i, th);
    SumUpdate(PoppedFor(t), threads, i, th);
    SumUpdate(HandlingFor(t), threads, i, th);
    SumUpdate(Drainers(t), threads, i, th);
  }

  /** The measures of one pool. */
  lemma PoolSums(p: PoolId, threads: seq<Thread>, i: nat, th: Thread)
    requires i < |threads|
    ensures Sum(Asleep(p), threads[i := th]) == Sum(Asleep(p), threads) - Weight(Asleep(p), threads[i]) + Weight(Asleep(p), th)
    ensures Sum(Idle(p), threads[i := th]) == Sum(Idle(p), threads) - Weight(Idle(p), threads[i]) + Weight(Idle(p), th)
    ensures Sum(Workers(p), threads[i := th]) == Sum(Workers(p), threads) - Weight(Workers(p), threads[i]) + Weight(Workers(p), th)
  {
    SumUpdate(Asleep(p), threads, i, th);
    SumUpdate(Idle(p), threads, i, th);
    SumUpdate(Workers(p), threads, i, th);
  }

  lemma {:induction false} SumZero(m: Measure, threads: seq<Thread>)
    ensures Sum(m, threads) == 0 <==> forall i :: 0 <= i < |threads| ==> Weight(m, threads[i]) == 0
  {
    if threads != [] {
      SumZero(m, threads[1..]);
      assert forall i :: 0 < i < |threads| ==> threads[i] == threads[1..][i - 1];
      if forall i :: 0 <= i < |threads| ==> Weight(m, threads[i]) == 0 {
        assert forall i :: 0 <= i < |threads| - 1 ==> threads[1..][i] == threads[i + 1];
      }
    }
  }

  /** A worker that is not asleep makes the sleepers fewer than the workers. */
  lemma {:induction false} SleepersAreWorkers(p: PoolId, threads: seq<Thread>)
    ensures Sum(Asleep(p), threads) <= Sum(Idle(p), threads) <= Sum(Workers(p), threads)
    ensures (exists i :: 0 <= i < |threads| && threads[i].home == Some(p) && !threads[i].base.Waiting?)
            <==> Sum(Asleep(p), threads) < Sum(Workers(p), threads)
  {
    if threads != [] {
      SleepersAreWorkers(p, threads[1..]);
      if i :| 0 <= i < |threads| && threads[i].home == Some(p) && !threads[i].base.Waiting? {
        if i > 0 { assert threads[1..][i - 1] == threads[i]; }
      }
      if i :| 0 <= i < |threads| - 1 && threads[1..][i].home == Some(p) && !threads[1..][i].base.Waiting? {
        assert threads[i + 1] == threads[1..][i];
      }
    }
  }

  // --- The invariant ---

  ghost predicate ThreadOk(s: State, th: Thread) {
    && (th.home.None? <==> th.base.Outside?)
    && (th.home.Some? ==> th.home.value in s.pools)
    && (th.base.Popped? || th.base.Handling? ==> th.base.s in s.stages)
    && (th.call != NoCall ==> th.call.t in s.stages && (th.base.Outside? || th.base.Handling?))
    && (th.call.Scheduling? ==> th.call.left > 0)
    && (th.call.Connecting? ==> th.call.backlog > 0)
    && (th.call.Draining? && !th.call.signalled ==> s.stages[th.call.t].ref > 0)
  }

  /** The scheduled work of a stage: run-queue entries, pending schedules, workers about to take an event. */
  function Scheduled(s: State, t: StageId): nat
    requires t in s.stages
  {
    Runs(s, t) + Sum(Pending(t), s.threads) + Sum(PoppedFor(t), s.threads)
  }

  ghost predicate StageOk(s: State, t: StageId)
    requires t in s.stages
  {
    var st := s.stages[t];
    && |st.queue| == Scheduled(s, t) + st.dropped + st.parked
    && st.ref == Scheduled(s, t) + st.dropped + Sum(HandlingFor(t), s.threads)
    && st.added == st.taken + st.queue
    && Sum(Drainers(t), s.threads) <= 1
    && (st.connected ==> st.pool.Some? && st.parked == 0 && Sum(Drainers(t), s.threads) == 0)
    && (Sum(Drainers(t), s.threads) > 0 ==> st.pool.Some?)
    && (!st.connected && Sum(Drainers(t), s.threads) == 0 ==> st.ref == 0)
    && (st.dropped > 0 ==> !st.connected)
    && (st.pool.Some? ==> st.pool.value in s.pools)
  }

  ghost predicate PoolOk(s: State, p: PoolId)
    requires p in s.pools
  {
    && s.pools[p].idles == Sum(Idle(p), s.threads)
    && (forall t :: t in s.pools[p].run ==> t in s.stages && s.stages[t].pool == Some(p))
    && (s.pools[p].run != [] && Sum(Workers(p), s.threads) > 0 ==> Sum(Asleep(p), s.threads) < Sum(Workers(p), s.threads))
  }

  ghost predicate Inv(s: State) {
    && (forall i {:trigger ThreadOk(s, s.threads[i])} :: 0 <= i < |s.threads| ==> ThreadOk(s, s.threads[i]))
    && (forall t {:trigger StageOk(s, t)} :: t in s.stages ==> StageOk(s, t))
    && (forall p {:trigger PoolOk(s, p)} :: p in s.pools ==> PoolOk(s, p))
  }

  /** Nothing has happened yet. */
  ghost predicate Init(s: State) {
    && (forall t :: t in s.stages ==> s.stages[t] == Stage([], false, 0, None, 0, 0, [], []))
    && (forall p :: p in s.pools ==> s.pools[p] == Pool([], 0))
    && (forall i :: 0 <= i < |s.threads| ==>
          var th := s.threads[i];
          th.call == NoCall && if th.home.None? then th.base == Outside else th.home.value in s.pools && th.base == Ready)
  }

  // --- Every step keeps the invariant ---

  lemma KeepsSetPool(s: State, t: StageId, p: PoolId)
    requires Inv(s) && DoSetPool(s, t, p).Some?
    ensures Inv(DoSetPool(s, t, p).value)
  {
    var s' := DoSetPool(s, t, p).value;
    assert StageOk(s, t);
    if s.stages[t].pool == Some(p) {
      assert s' == s;
    } else {
      forall q | q in s.pools ensures t !in s.pools[q].run { assert PoolOk(s, q); }
      forall u | u in s'.stages ensures StageOk(s', u) {
        assert StageOk(s, u);
        if u == t { NoRuns(s', t); }
      }
      forall q | q in s'.pools ensures PoolOk(s', q) {
        assert PoolOk(s, q);
      }
      forall i | 0 <= i < |s'.threads| ensures ThreadOk(s', s'.threads[i]) {
        assert ThreadOk(s, s.threads[i]);
      }
    }
  }

  lemma NoDrainers(s: State, t: StageId)
    ensures BeingDrained(s, t) <==> Sum(Drainers(t), s.threads) > 0
  {
    SumZero(Drainers(t), s.threads);
    if i :| 0 <= i < |s.threads| && Weight(Drainers(t), s.threads[i]) > 0 { assert DrainedBy(s, t, i); }
  }

  /** A stage with no references is on no run queue. */
  lemma NoRuns(s: State, t: StageId)
    requires t in s.stages && (forall p :: p in s.pools ==> t !in s.pools[p].run)
    ensures Runs(s, t) == 0
  {
  }

  // Most steps change one stage and one thread.

  /** The two forms of a thread differ only in what concerns stage `t`, and neither sleeps. */
  ghost predicate DifferAt(a: Thread, b: Thread, t: StageId) {
    && a.home == b.home
    && a.base.Waiting? == b.base.Waiting? && a.base.Notified? == b.base.Notified?
    && (a.base == b.base || ((a.base.Popped? || a.base.Handling? ==> a.base.s == t) && (b.base.Popped? || b.base.Handling? ==> b.base.s == t)))
    && (a.call == b.call || ((a.call == NoCall || a.call.t == t) && (b.call == NoCall || b.call.t == t)))
  }

  lemma OtherStage(s: State, t: StageId, st: Stage, i: nat, th: Thread, u: StageId)
    requires i < |s.threads| && DifferAt(s.threads[i], th, t) && t in s.stages && u in s.stages && u != t && StageOk(s, u)
    ensures StageOk(State(s.stages[t := st], s.pools, s.threads[i := th]), u)
  {
    StageSums(u, s.threads, i, th);
    var s' := State(s.stages[t := st], s.pools, s.threads[i := th]);
    assert s'.stages[u] == s.stages[u];
  }

  lemma OtherPool(s: State, t: StageId, st: Stage, i: nat, th: Thread, q: PoolId)
    requires i < |s.threads| && DifferAt(s.threads[i], th, t) && t in s.stages && q in s.pools && PoolOk(s, q)
    requires st.pool == s.stages[t].pool || t !in s.pools[q].run
    ensures PoolOk(State(s.stages[t := st], s.pools, s.threads[i := th]), q)
  {
    PoolSums(q, s.threads, i, th);
  }

  lemma OtherThread(s: State, t: StageId, st: Stage, th: Thread)
    requires t in s.stages && ThreadOk(s, th) && (th.call == Draining(t, false) && s.stages[t].ref > 0 ==> st.ref > 0)
    ensures ThreadOk(s.(stages := s.stages[t := st]), th)
  {
  }

  lemma OneStage(s: State, t: StageId, st: Stage, i: nat, th: Thread)
    requires Inv(s) && i < |s.threads| && t in s.stages && DifferAt(s.threads[i], th, t)
    requires (exists j :: 0 <= j < |s.threads| && s.threads[j].call == Draining(t, false)) && s.stages[t].ref > 0 ==> st.ref > 0
    requires st.pool == s.stages[t].pool || s.stages[t].ref == 0
    requires var s' := State(s.stages[t := st], s.pools, s.threads[i := th]); StageOk(s', t) && ThreadOk(s', th)
    ensures Inv(State(s.stages[t := st], s.pools, s.threads[i := th]))
  {
    var s' := State(s.stages[t := st], s.pools, s.threads[i := th]);
    forall u | u in s'.stages ensures StageOk(s', u) {
      if u != t { OtherStage(s, t, st, i, th, u); }
    }
    forall q | q in s'.pools ensures PoolOk(s', q) {
      if s.stages[t].ref == 0 { Unscheduled(s, t, q); }
      OtherPool(s, t, st, i, th, q);
    }
    forall j | 0 <= j < |s'.threads| ensures ThreadOk(s', s'.threads[j]) {
      if j != i { OtherThread(s, t, st, s.threads[j]); }
    }
  }

  /** A stage with no references is on no run queue. */
  lemma Unscheduled(s: State, t: StageId, q: PoolId)
    requires Inv(s) && t in s.stages && s.stages[t].ref == 0 && q in s.pools
    ensures t !in s.pools[q].run
  {
    assert StageOk(s, t) && PoolOk(s, q);
  }

  /** The numbers of `StageOk` after a step that changes stage `t` and thread `i`. */
  lemma Recount(s: State, t: StageId, st: Stage, i: nat, th: Thread)
    requires i < |s.threads| && t in s.stages && (st.pool == s.stages[t].pool || (st.pool.None? && Runs(s, t) == 0))
    ensures var s' := State(s.stages[t := st], s.pools, s.threads[i := th]);
      && Scheduled(s', t) == Scheduled(s, t) - Weight(Pending(t), s.threads[i]) + Weight(Pending(t), th)
                             - Weight(PoppedFor(t), s.threads[i]) + Weight(PoppedFor(t), th)
      && Sum(HandlingFor(t), s'.threads) == Sum(HandlingFor(t), s.threads) - Weight(HandlingFor(t), s.threads[i]) + Weight(HandlingFor(t), th)
      && Sum(Drainers(t), s'.threads) == Sum(Drainers(t), s.threads) - Weight(Drainers(t), s.threads[i]) + Weight(Drainers(t), th)
  {
    StageSums(t, s.threads, i, th);
  }

  lemma AddConnected(s: State, i: nat, t: StageId, e: Event)
    requires Inv(s) && i < |s.threads| && t in s.stages && Free(s.threads[i]) && s.stages[t].connected
    ensures var st := s.stages[t];
      Inv(State(s.stages[t := st.(queue := st.queue + [e], added := st.added + [e], ref := st.ref + 1)], s.pools,
                s.threads[i := s.threads[i].(call := Scheduling(t, 1))]))
  {
    var st := s.stages[t].(queue := s.stages[t].queue + [e], added := s.stages[t].added + [e], ref := s.stages[t].ref + 1);
    var th := s.threads[i].(call := Scheduling(t, 1));
    assert ThreadOk(s, s.threads[i]) && StageOk(s, t);
    Recount(s, t, st, i, th);
    OneStage(s, t, st, i, th);
  }

  lemma AddParked(s: State, i: nat, t: StageId, e: Event)
    requires Inv(s) && i < |s.threads| && t in s.stages && !s.stages[t].connected
    ensures var st := s.stages[t];
      Inv(s.(stages := s.stages[t := st.(queue := st.queue + [e], added := st.added + [e], parked := st.parked + 1)]))
  {
    var st := s.stages[t].(queue := s.stages[t].queue + [e], added := s.stages[t].added + [e], parked := s.stages[t].parked + 1);
    assert ThreadOk(s, s.threads[i]) && StageOk(s, t);
    Recount(s, t, st, i, s.threads[i]);
    assert s.threads[i := s.threads[i]] == s.threads;
    OneStage(s, t, st, i, s.threads[i]);
  }

  lemma KeepsAddEvent(s: State, i: nat, t: StageId, e: Event)
    requires Inv(s) && DoAddEvent(s, i, t, e).Some?
    ensures Inv(DoAddEvent(s, i, t, e).value)
  {
    if s.stages[t].connected { AddConnected(s, i, t, e); } else { AddParked(s, i, t, e); }
  }

  lemma KeepsConnect(s: State, i: nat, t: StageId)
    requires Inv(s) && DoConnect(s, i, t).Some?
    ensures Inv(DoConnect(s, i, t).value)
  {
    var s' := DoConnect(s, i, t).value;
    var th, st := s'.threads[i], s'.stages[t];
    assert ThreadOk(s, s.threads[i]) && StageOk(s, t);
    NoDrainers(s, t);
    Recount(s, t, st, i, th);
    OneStage(s, t, st, i, th);
  }

  lemma BeginScheduling(s: State, i: nat, t: StageId, backlog: nat)
    requires Inv(s) && i < |s.threads| && s.threads[i].call == Connecting(t, backlog)
    ensures Inv(s.(threads := s.threads[i := s.threads[i].(call := Scheduling(t, backlog))]))
  {
    var th := s.threads[i].(call := Scheduling(t, backlog));
    assert ThreadOk(s, s.threads[i]) && StageOk(s, t);
    Recount(s, t, s.stages[t], i, th);
    assert s.stages[t := s.stages[t]] == s.stages;
    OneStage(s, t, s.stages[t], i, th);
  }

  lemma DropBacklog(s: State, i: nat, t: StageId, backlog: nat)
    requires Inv(s) && i < |s.threads| && s.threads[i].call == Connecting(t, backlog) && t in s.stages && !s.stages[t].connected
    ensures Inv(s.(stages := s.stages[t := s.stages[t].(dropped := s.stages[t].dropped + backlog)],
                   threads := s.threads[i := s.threads[i].(call := NoCall)]))
  {
    var st, th := s.stages[t].(dropped := s.stages[t].dropped + backlog), s.threads[i].(call := NoCall);
    assert ThreadOk(s, s.threads[i]) && StageOk(s, t);
    Recount(s, t, st, i, th);
    OneStage(s, t, st, i, th);
  }

  lemma KeepsCheckConnected(s: State, i: nat)
    requires Inv(s) && DoCheckConnected(s, i).Some?
    ensures Inv(DoCheckConnected(s, i).value)
  {
    var t, backlog := s.threads[i].call.t, s.threads[i].call.backlog;
    if s.stages[t].connected { BeginScheduling(s, i, t, backlog); } else { DropBacklog(s, i, t, backlog); }
  }

  /** `disconnect` has to wait. */
  lemma Waits(s: State, i: nat, t: StageId)
    requires Inv(s) && i < |s.threads| && t in s.stages && s.stages[t].ref > 0
    requires (s.stages[t].connected && Free(s.threads[i])) || DrainedBy(s, t, i)
    ensures Inv(State(s.stages[t := s.stages[t].(connected := false)], s.pools, s.threads[i := s.threads[i].(call := Draining(t, false))]))
  {
    var st, th := s.stages[t].(connected := false), s.threads[i].(call := Draining(t, false));
    assert ThreadOk(s, s.threads[i]) && StageOk(s, t);
    SumUpdate(Drainers(t), s.threads, i, th);
    Recount(s, t, st, i, th);
    OneStage(s, t, st, i, th);
  }

  /** `disconnect` can finish. */
  lemma Finishes(s: State, i: nat, t: StageId)
    requires Inv(s) && i < |s.threads| && t in s.stages && s.stages[t].ref == 0
    requires (s.stages[t].connected && Free(s.threads[i])) || DrainedBy(s, t, i)
    ensures Inv(State(s.stages[t := s.stages[t].(connected := false, pool := None)], s.pools, s.threads[i := s.threads[i].(call := NoCall)]))
  {
    var st, th := s.stages[t].(connected := false, pool := None), s.threads[i].(call := NoCall);
    assert ThreadOk(s, s.threads[i]) && StageOk(s, t);
    SumUpdate(Drainers(t), s.threads, i, th);
    Recount(s, t, st, i, th);
    OneStage(s, t, st, i, th);
  }

  lemma KeepsSettle(s: State, i: nat, t: StageId)
    requires Inv(s) && i < |s.threads| && t in s.stages && ((s.stages[t].connected && Free(s.threads[i])) || DrainedBy(s, t, i))
    ensures Inv(Settle(s.(stages := s.stages[t := s.stages[t].(connected := false)]), i, t))
  {
    var m, st := s.stages[t := s.stages[t].(connected := false)], s.stages[t].(connected := false, pool := None);
    assert StageOk(s, t);
    if s.stages[t].ref > 0 {
      Waits(s, i, t);
    } else {
      Finishes(s, i, t);
      assert m[t := st] == s.stages[t := st];
    }
  }

  lemma KeepsDisconnect(s: State, i: nat, t: StageId)
    requires Inv(s) && DoDisconnect(s, i, t).Some?
    ensures Inv(DoDisconnect(s, i, t).value)
  {
    KeepsSettle(s, i, t);
  }

  lemma KeepsRecheck(s: State, i: nat)
    requires Inv(s) && DoRecheck(s, i).Some?
    ensures Inv(DoRecheck(s, i).value)
  {
    var t := s.threads[i].call.t;
    assert StageOk(s, t);
    SumUpdate(Drainers(t), s.threads, i, s.threads[i]);
    KeepsSettle(s, i, t);
    assert s.stages[t := s.stages[t].(connected := false)] == s.stages;
  }

  lemma RemoveLocal(s: State, i: nat, t: StageId)
    requires i < |s.threads| && t in s.stages && s.threads[i].base == Popped(t) && s.stages[t].queue != []
    requires ThreadOk(s, s.threads[i]) && StageOk(s, t)
    ensures var st, th := s.stages[t], s.threads[i].(base := Handling(t));
      var st' := st.(queue := st.queue[1..], taken := st.taken + [st.queue[0]]);
      var s' := State(s.stages[t := st'], s.pools, s.threads[i := th]);
      StageOk(s', t) && ThreadOk(s', th)
  {
    var st := s.stages[t];
    Recount(s, t, st.(queue := st.queue[1..], taken := st.taken + [st.queue[0]]), i, s.threads[i].(base := Handling(t)));
    assert st.queue == [st.queue[0]] + st.queue[1..];
  }

  lemma KeepsRemove(s: State, i: nat)
    requires Inv(s) && DoRemove(s, i).Some?
    ensures Inv(DoRemove(s, i).value)
  {
    var t := s.threads[i].base.s;
    var st := s.stages[t];
    RemoveLocal(s, i, t);
    OneStage(s, t, st.(queue := st.queue[1..], taken := st.taken + [st.queue[0]]), i, s.threads[i].(base := Handling(t)));
  }

  lemma KeepsSignal(s: State, j: nat, t: StageId)
    requires Inv(s) && j < |s.threads| && s.threads[j].call == Draining(t, false)
    ensures Inv(s.(threads := s.threads[j := s.threads[j].(call := Draining(t, true))]))
  {
    var th := s.threads[j].(call := Draining(t, true));
    assert ThreadOk(s, s.threads[j]) && StageOk(s, t);
    Recount(s, t, s.stages[t], j, th);
    OneStage(s, t, s.stages[t], j, th);
    assert s.stages[t := s.stages[t]] == s.stages;
  }

  lemma ReleaseSignalling(s: State, t: StageId, i: nat, j: nat)
    requires Inv(s) && i < |s.threads| && s.threads[i].base == Handling(t) && s.threads[i].call == NoCall && t in s.stages
    requires j < |s.threads| && s.threads[j].call == Draining(t, false)
    ensures var st, th := s.stages[t].(ref := s.stages[t].ref - 1), s.threads[i].(base := Ready);
      Inv(State(s.stages[t := st], s.pools, s.threads[i := th][j := s.threads[j].(call := Draining(t, true))]))
  {
    var st, th := s.stages[t].(ref := s.stages[t].ref - 1), s.threads[i].(base := Ready);
    var thj := s.threads[j].(call := Draining(t, true));
    KeepsSignal(s, j, t);
    var s1 := s.(threads := s.threads[j := thj]);
    assert s.threads[i := th][j := thj] == s1.threads[i := th];
    OnlyDrainer(s, t, j);
    forall k | 0 <= k < |s1.threads| ensures s1.threads[k].call != Draining(t, false) {
      assert k != j ==> s1.threads[k] == s.threads[k] && !DrainedBy(s, t, k);
    }
    Lower(s1, t, st, i, th);
  }

  lemma ReleaseSilent(s: State, t: StageId, i: nat)
    requires Inv(s) && i < |s.threads| && s.threads[i].base == Handling(t) && s.threads[i].call == NoCall && t in s.stages
    requires var st := s.stages[t].(ref := s.stages[t].ref - 1);
      !st.connected && st.ref == 0 ==> WakesDrainer(s.threads[i := s.threads[i].(base := Ready)], t, None)
    ensures var st, th := s.stages[t].(ref := s.stages[t].ref - 1), s.threads[i].(base := Ready);
      Inv(State(s.stages[t := st], s.pools, s.threads[i := th]))
  {
    var st, th := s.stages[t].(ref := s.stages[t].ref - 1), s.threads[i].(base := Ready);
    if !st.connected && st.ref == 0 {
      forall j | 0 <= j < |s.threads| ensures s.threads[j].call != Draining(t, false) {
        assert s.threads[i := th][j].call == s.threads[j].call;
      }
    }
    Lower(s, t, st, i, th);
  }

  lemma ReleaseShape(s: State, i: nat, wake: Option<nat>)
    requires DoRelease(s, i, wake).Some?
    ensures var t := s.threads[i].base.s;
      var st, th := s.stages[t].(ref := s.stages[t].ref - 1), s.threads[i].(base := Ready);
      && (wake.Some? ==>
            && wake.value < |s.threads| && s.threads[wake.value].call == Draining(t, false)
            && DoRelease(s, i, wake).value ==
               State(s.stages[t := st], s.pools, s.threads[i := th][wake.value := s.threads[wake.value].(call := Draining(t, true))]))
      && (wake.None? ==>
            && (!st.connected && st.ref == 0 ==> WakesDrainer(s.threads[i := th], t, None))
            && DoRelease(s, i, wake).value == State(s.stages[t := st], s.pools, s.threads[i := th]))
  {
  }

  lemma KeepsSignallingRelease(s: State, i: nat, j: nat)
    requires Inv(s) && DoRelease(s, i, Some(j)).Some?
    ensures Inv(DoRelease(s, i, Some(j)).value)
  {
    ReleaseShape(s, i, Some(j));
    ReleaseSignalling(s, s.threads[i].base.s, i, j);
  }

  lemma KeepsSilentRelease(s: State, i: nat)
    requires Inv(s) && DoRelease(s, i, None).Some?
    ensures Inv(DoRelease(s, i, None).value)
  {
    ReleaseShape(s, i, None);
    ReleaseSilent(s, s.threads[i].base.s, i);
  }

  lemma KeepsRelease(s: State, i: nat, wake: Option<nat>)
    requires Inv(s) && DoRelease(s, i, wake).Some?
    ensures Inv(DoRelease(s, i, wake).value)
  {
    if wake.Some? { KeepsSignallingRelease(s, i, wake.value); } else { KeepsSilentRelease(s, i); }
  }

  lemma OnlyDrainer(s: State, t: StageId, j: nat)
    requires Inv(s) && t in s.stages && DrainedBy(s, t, j)
    ensures forall k :: 0 <= k < |s.threads| && k != j ==> !DrainedBy(s, t, k)
  {
    assert StageOk(s, t);
    forall k | 0 <= k < |s.threads| && k != j ensures !DrainedBy(s, t, k) {
      var none := s.threads[j].(call := NoCall);
      SumUpdate(Drainers(t), s.threads, j, none);
      SumZero(Drainers(t), s.threads[j := none]);
      assert s.threads[j := none][k] == s.threads[k];
    }
  }

  lemma Lower(s: State, t: StageId, st: Stage, i: nat, th: Thread)
    requires Inv(s) && i < |s.threads| && s.threads[i].base == Handling(t) && s.threads[i].call == NoCall && t in s.stages
    requires th == s.threads[i].(base := Ready) && st == s.stages[t].(ref := s.stages[t].ref - 1)
    requires !st.connected && st.ref == 0 ==> forall j :: 0 <= j < |s.threads| ==> s.threads[j].call != Draining(t, false)
    ensures Inv(State(s.stages[t := st], s.pools, s.threads[i := th]))
  {
    assert ThreadOk(s, s.threads[i]) && StageOk(s, t);
    SumUpdate(HandlingFor(t), s.threads, i, th);
    if j :| 0 <= j < |s.threads| && s.threads[j].call == Draining(t, false) {
      SumUpdate(Drainers(t), s.threads, j, s.threads[j]);
    }
    Recount(s, t, st, i, th);
    OneStage(s, t, st, i, th);
  }

  // The other steps change one pool and one thread.

  /** A thread takes stage `t` from the run queue of `p`, sleeps or wakes there, or has put `t` on it. */
  ghost predicate MoveAt(a: Thread, b: Thread, p: PoolId, t: StageId) {
    && a.home == b.home
    && (a.call == b.call || (a.call.Scheduling? && a.call.t == t && (b.call == NoCall || (b.call.Scheduling? && b.call.t == t))))
    && (a.base == b.base || (a.home == Some(p) && !a.base.Popped? && !a.base.Handling? && !b.base.Handling? && (b.base.Popped? ==> b.base.s == t)))
  }

  lemma StageBeside(s: State, p: PoolId, pool: Pool, i: nat, th: Thread, t: StageId, u: StageId)
    requires i < |s.threads| && p in s.pools && MoveAt(s.threads[i], th, p, t) && u in s.stages && u != t && StageOk(s, u)
    requires multiset(pool.run)[u] == multiset(s.pools[p].run)[u]
    ensures StageOk(State(s.stages, s.pools[p := pool], s.threads[i := th]), u)
  {
    var s' := State(s.stages, s.pools[p := pool], s.threads[i := th]);
    StageSums(u, s.threads, i, th);
    assert Runs(s', u) == Runs(s, u);
    assert Scheduled(s', u) == Scheduled(s, u);
  }

  lemma PoolBeside(s: State, p: PoolId, pool: Pool, i: nat, th: Thread, t: StageId, q: PoolId)
    requires i < |s.threads| && MoveAt(s.threads[i], th, p, t) && q in s.pools && q != p && PoolOk(s, q)
    ensures PoolOk(State(s.stages, s.pools[p := pool], s.threads[i := th]), q)
  {
    PoolSums(q, s.threads, i, th);
  }

  lemma OnePool(s: State, p: PoolId, pool: Pool, i: nat, th: Thread, t: StageId)
    requires Inv(s) && i < |s.threads| && p in s.pools && MoveAt(s.threads[i], th, p, t)
    requires forall u :: u in s.stages && u != t ==> multiset(pool.run)[u] == multiset(s.pools[p].run)[u]
    requires var s' := State(s.stages, s.pools[p := pool], s.threads[i := th]);
      PoolOk(s', p) && ThreadOk(s', th) && (t in s.stages ==> StageOk(s', t))
    ensures Inv(State(s.stages, s.pools[p := pool], s.threads[i := th]))
  {
    var s' := State(s.stages, s.pools[p := pool], s.threads[i := th]);
    forall u | u in s'.stages ensures StageOk(s', u) {
      if u != t { StageBeside(s, p, pool, i, th, t, u); }
    }
    forall q | q in s'.pools ensures PoolOk(s', q) {
      if q != p { PoolBeside(s, p, pool, i, th, t, q); }
    }
    forall j | 0 <= j < |s'.threads| ensures ThreadOk(s', s'.threads[j]) {
      if j != i { ThreadBeside(s, p, pool, s.threads[j]); }
    }
  }

  lemma ThreadBeside(s: State, p: PoolId, pool: Pool, th: Thread)
    requires ThreadOk(s, th)
    ensures ThreadOk(s.(pools := s.pools[p := pool]), th)
  {
  }

  lemma Sleep(s: State, p: PoolId, i: nat)
    requires Inv(s) && i < |s.threads| && s.threads[i].home == Some(p) && p in s.pools && s.pools[p].run == []
    requires s.threads[i].base.Ready? || s.threads[i].base.Waiting? || s.threads[i].base.Notified?
    ensures var idles := if s.threads[i].base.Ready? then s.pools[p].idles + 1 else s.pools[p].idles;
      Inv(State(s.stages, s.pools[p := Pool([], idles)], s.threads[i := s.threads[i].(base := Waiting)]))
  {
    var th := s.threads[i].(base := Waiting);
    var pool := Pool([], if s.threads[i].base.Ready? then s.pools[p].idles + 1 else s.pools[p].idles);
    assert ThreadOk(s, s.threads[i]) && PoolOk(s, p);
    PoolSums(p, s.threads, i, th);
    Bystander(s, p, pool, i, th, 0);
    OnePool(s, p, pool, i, th, 0);
  }

  /** A stage whose numbers a step leaves alone. */
  lemma Bystander(s: State, p: PoolId, pool: Pool, i: nat, th: Thread, t: StageId)
    requires Inv(s) && i < |s.threads| && p in s.pools && pool.run == s.pools[p].run
    requires th.call == s.threads[i].call && !th.base.Popped? && !th.base.Handling?
    requires !s.threads[i].base.Popped? && !s.threads[i].base.Handling?
    ensures t in s.stages ==> StageOk(State(s.stages, s.pools[p := pool], s.threads[i := th]), t)
  {
    if t in s.stages {
      var s' := State(s.stages, s.pools[p := pool], s.threads[i := th]);
      assert StageOk(s, t);
      StageSums(t, s.threads, i, th);
      assert Runs(s', t) == Runs(s, t);
    }
  }

  lemma PopStage(s: State, p: PoolId, i: nat, th: Thread, pool: Pool)
    requires i < |s.threads| && s.threads[i].home == Some(p) && p in s.pools && s.pools[p].run != []
    requires s.pools[p].run[0] in s.stages && s.stages[s.pools[p].run[0]].pool == Some(p) && StageOk(s, s.pools[p].run[0])
    requires !s.threads[i].base.Popped? && !s.threads[i].base.Handling?
    requires th == s.threads[i].(base := Popped(s.pools[p].run[0])) && pool.run == s.pools[p].run[1..]
    ensures StageOk(State(s.stages, s.pools[p := pool], s.threads[i := th]), s.pools[p].run[0])
  {
    var run := s.pools[p].run;
    assert run == [run[0]] + run[1..];
    StageSums(run[0], s.threads, i, th);
  }

  lemma PopPool(s: State, p: PoolId, i: nat, th: Thread, pool: Pool)
    requires i < |s.threads| && s.threads[i].home == Some(p) && p in s.pools && s.pools[p].run != [] && PoolOk(s, p)
    requires s.threads[i].base.Ready? || s.threads[i].base.Waiting? || s.threads[i].base.Notified?
    requires th == s.threads[i].(base := Popped(s.pools[p].run[0]))
    requires pool == Pool(s.pools[p].run[1..], if s.threads[i].base.Ready? then s.pools[p].idles else s.pools[p].idles - 1)
    ensures PoolOk(State(s.stages, s.pools[p := pool], s.threads[i := th]), p)
  {
    PoolSums(p, s.threads, i, th);
    assert s.threads[i := th][i] == th;
    SleepersAreWorkers(p, s.threads[i := th]);
  }

  lemma Pop(s: State, p: PoolId, i: nat)
    requires Inv(s) && i < |s.threads| && s.threads[i].home == Some(p) && p in s.pools && s.pools[p].run != []
    requires s.threads[i].base.Ready? || s.threads[i].base.Waiting? || s.threads[i].base.Notified?
    ensures var idles := if s.threads[i].base.Ready? then s.pools[p].idles else s.pools[p].idles - 1;
      Inv(State(s.stages, s.pools[p := Pool(s.pools[p].run[1..], idles)], s.threads[i := s.threads[i].(base := Popped(s.pools[p].run[0]))]))
  {
    var run := s.pools[p].run;
    var t, th := run[0], s.threads[i].(base := Popped(run[0]));
    var pool := Pool(run[1..], if s.threads[i].base.Ready? then s.pools[p].idles else s.pools[p].idles - 1);
    assert ThreadOk(s, s.threads[i]) && PoolOk(s, p);
    assert t in run && StageOk(s, t);
    PopStage(s, p, i, th, pool);
    PopPool(s, p, i, th, pool);
    assert run == [t] + run[1..];
    OnePool(s, p, pool, i, th, t);
  }

  lemma KeepsFetch(s: State, i: nat)
    requires Inv(s) && DoFetch(s, i).Some?
    ensures Inv(DoFetch(s, i).value)
  {
    var p := s.threads[i].home.value;
    if s.pools[p].run == [] { Sleep(s, p, i); } else { Pop(s, p, i); }
  }

  lemma KeepsNotify(s: State, j: nat)
    requires Inv(s) && j < |s.threads| && s.threads[j].base.Waiting? && s.threads[j].home.Some?
    ensures Inv(s.(threads := s.threads[j := s.threads[j].(base := Notified)]))
  {
    var th, p := s.threads[j].(base := Notified), s.threads[j].home.value;
    assert ThreadOk(s, s.threads[j]) && PoolOk(s, p);
    PoolSums(p, s.threads, j, th);
    Bystander(s, p, s.pools[p], j, th, 0);
    assert s.pools[p := s.pools[p]] == s.pools;
    OnePool(s, p, s.pools[p], j, th, 0);
  }

  lemma PushStage(s: State, p: PoolId, i: nat, th: Thread)
    requires i < |s.threads| && s.threads[i].call.Scheduling? && s.threads[i].call.left > 0 && s.threads[i].call.t in s.stages
    requires s.stages[s.threads[i].call.t].pool == Some(p) && p in s.pools && StageOk(s, s.threads[i].call.t)
    requires var t, left := s.threads[i].call.t, s.threads[i].call.left;
      th == s.threads[i].(call := if left == 1 then NoCall else Scheduling(t, left - 1))
    ensures var t := s.threads[i].call.t;
      StageOk(State(s.stages, s.pools[p := s.pools[p].(run := s.pools[p].run + [t])], s.threads[i := th]), t)
  {
    StageSums(s.threads[i].call.t, s.threads, i, th);
  }

  lemma PushPool(s: State, p: PoolId, i: nat, th: Thread)
    requires i < |s.threads| && s.threads[i].call.Scheduling? && s.threads[i].call.t in s.stages
    requires s.stages[s.threads[i].call.t].pool == Some(p) && p in s.pools && PoolOk(s, p)
    requires th.home == s.threads[i].home && th.base == s.threads[i].base
    requires Sum(Workers(p), s.threads) > 0 ==> Sum(Asleep(p), s.threads) < Sum(Workers(p), s.threads)
    ensures PoolOk(State(s.stages, s.pools[p := s.pools[p].(run := s.pools[p].run + [s.threads[i].call.t])], s.threads[i := th]), p)
  {
    PoolSums(p, s.threads, i, th);
  }

  lemma Push(s: State, p: PoolId, i: nat, th: Thread)
    requires Inv(s) && i < |s.threads| && s.threads[i].call.Scheduling? && s.threads[i].call.t in s.stages
    requires s.stages[s.threads[i].call.t].pool == Some(p) && p in s.pools && s.threads[i].call.left > 0
    requires var t, left := s.threads[i].call.t, s.threads[i].call.left;
      th == s.threads[i].(call := if left == 1 then NoCall else Scheduling(t, left - 1))
    requires Sum(Workers(p), s.threads) > 0 ==> Sum(Asleep(p), s.threads) < Sum(Workers(p), s.threads)
    ensures var t := s.threads[i].call.t;
      Inv(State(s.stages, s.pools[p := s.pools[p].(run := s.pools[p].run + [t])], s.threads[i := th]))
  {
    var t := s.threads[i].call.t;
    assert ThreadOk(s, s.threads[i]);
    PushPool(s, p, i, th);
    PushStage(s, p, i, th);
    OnePool(s, p, s.pools[p].(run := s.pools[p].run + [t]), i, th, t);
  }

  lemma AwakeOne(p: PoolId, threads: seq<Thread>, j: nat)
    requires j < |threads| && threads[j].home == Some(p) && !threads[j].base.Waiting?
    ensures Sum(Asleep(p), threads) < Sum(Workers(p), threads)
  {
    SleepersAreWorkers(p, threads);
  }

  lemma PushSignalling(s: State, p: PoolId, i: nat, th: Thread, j: nat)
    requires Inv(s) && i < |s.threads| && s.threads[i].call.Scheduling? && s.threads[i].call.t in s.stages
    requires s.stages[s.threads[i].call.t].pool == Some(p) && p in s.pools && s.threads[i].call.left > 0
    requires var t, left := s.threads[i].call.t, s.threads[i].call.left;
      th == s.threads[i].(call := if left == 1 then NoCall else Scheduling(t, left - 1))
    requires j < |s.threads| && j != i && s.threads[j].home == Some(p) && s.threads[j].base == Waiting
    ensures var t := s.threads[i].call.t;
      Inv(State(s.stages, s.pools[p := s.pools[p].(run := s.pools[p].run + [t])],
                s.threads[i := th][j := s.threads[j].(base := Notified)]))
  {
    var thj := s.threads[j].(base := Notified);
    KeepsNotify(s, j);
    var s1 := s.(threads := s.threads[j := thj]);
    assert s.threads[i := th][j := thj] == s1.threads[i := th];
    AwakeOne(p, s1.threads, j);
    assert s1.threads[i] == s.threads[i];
    Push(s1, p, i, th);
  }

  lemma KeepsSchedule(s: State, i: nat, wake: Option<nat>)
    requires Inv(s) && DoSchedule(s, i, wake).Some?
    ensures Inv(DoSchedule(s, i, wake).value)
  {
    var t, left := s.threads[i].call.t, s.threads[i].call.left;
    var p, th := s.stages[t].pool.value, s.threads[i].(call := if left == 1 then NoCall else Scheduling(t, left - 1));
    assert ThreadOk(s, s.threads[i]);
    if wake.Some? {
      PushSignalling(s, p, i, th, wake.value);
    } else {
      AwakeEnough(s, p, i, th);
      Push(s, p, i, th);
    }
  }

  /** When `schedule` signals nobody, some worker is awake already. */
  lemma AwakeEnough(s: State, p: PoolId, i: nat, th: Thread)
    requires i < |s.threads| && p in s.pools && PoolOk(s, p)
    requires th.home == s.threads[i].home && th.base == s.threads[i].base
    requires th.base.Outside? || th.base.Handling?
    requires ((s.pools[p].run != [] || s.threads[i].home != Some(p)) && s.pools[p].idles > 0) ==> Wakes(s.threads[i := th], p, None)
    ensures Sum(Workers(p), s.threads) > 0 ==> Sum(Asleep(p), s.threads) < Sum(Workers(p), s.threads)
  {
    SleepersAreWorkers(p, s.threads);
    if s.pools[p].idles > 0 && (s.pools[p].run != [] || s.threads[i].home != Some(p)) {
      assert forall j :: 0 <= j < |s.threads| ==> s.threads[i := th][j].home == s.threads[j].home && s.threads[i := th][j].base == s.threads[j].base;
      SumZero(Asleep(p), s.threads);
    }
  }

  lemma KeepsStep(s: State, step: Step)
    requires Inv(s) && Do(s, step).Some?
    ensures Inv(Do(s, step).value)
  {
    match step
    case SetPool(t, p) => KeepsSetPool(s, t, p);
    case AddEvent(i, t, e) => KeepsAddEvent(s, i, t, e);
    case Connect(i, t) => KeepsConnect(s, i, t);
    case CheckConnected(i) => KeepsCheckConnected(s, i);
    case Schedule(i, wake) => KeepsSchedule(s, i, wake);
    case Disconnect(i, t) => KeepsDisconnect(s, i, t);
    case Recheck(i) => KeepsRecheck(s, i);
    case Fetch(i) => KeepsFetch(s, i);
    case Remove(i) => KeepsRemove(s, i);
    case Release(i, wake) => KeepsRelease(s, i, wake);
  }

  lemma Starts(s: State)
    requires Init(s)
    ensures Inv(s)
  {
    forall t | t in s.stages ensures StageOk(s, t) {
      SumZero(Pending(t), s.threads);
      SumZero(PoppedFor(t), s.threads);
      SumZero(HandlingFor(t), s.threads);
      SumZero(Drainers(t), s.threads);
    }
    forall p | p in s.pools ensures PoolOk(s, p) {
      SumZero(Idle(p), s.threads);
    }
  }

  /** Every state of every run keeps the counts. */
  lemma {:induction false} RunsKeep(s: State, steps: seq<Step>)
    requires Init(s) && Run(s, steps).Some?
    ensures Inv(Run(s, steps).value)
  {
    if steps == [] {
      Starts(s);
    } else {
      RunsKeep(s, steps[..|steps| - 1]);
      KeepsStep(Run(s, steps[..|steps| - 1]).value, steps[|steps| - 1]);
    }
  }

  // --- What follows for every run ---

  lemma InState(s: State, i: nat, t: StageId)
    requires Inv(s) && i < |s.threads| && t in s.stages
    ensures Weight(Pending(t), s.threads[i]) + Weight(PoppedFor(t), s.threads[i]) <= |s.stages[t].queue|
    ensures Weight(Pending(t), s.threads[i]) + Weight(PoppedFor(t), s.threads[i]) + Weight(HandlingFor(t), s.threads[i]) <= s.stages[t].ref
  {
    assert StageOk(s, t);
    SumUpdate(Pending(t), s.threads, i, s.threads[i]);
    SumUpdate(PoppedFor(t), s.threads, i, s.threads[i]);
    SumUpdate(HandlingFor(t), s.threads, i, s.threads[i]);
  }

  /**
    The assertions of the source hold: a worker that took a stage finds an event, a thread about to
    schedule finds a non-empty queue and a pool, a connected stage has a pool.  Events leave in
    the order in which they came.
   */
  lemma Safe(s0: State, steps: seq<Step>, s: State)
    requires Init(s0) && Run(s0, steps) == Some(s)
    ensures forall i :: 0 <= i < |s.threads| ==>
      var th := s.threads[i];
      && (th.base.Popped? ==> th.base.s in s.stages && s.stages[th.base.s].queue != [] && DoRemove(s, i).Some?)
      && (th.call.Scheduling? || th.call.Connecting? ==>
            th.call.t in s.stages && s.stages[th.call.t].queue != [] && s.stages[th.call.t].pool.Some?)
    ensures forall t :: t in s.stages ==>
      var st := s.stages[t];
      && st.ref >= 0 && st.added == st.taken + st.queue
      && (st.connected ==> st.pool.Some?)
  {
    RunsKeep(s0, steps);
    forall i | 0 <= i < |s.threads|
      ensures s.threads[i].base.Popped? ==> s.threads[i].base.s in s.stages && s.stages[s.threads[i].base.s].queue != [] && DoRemove(s, i).Some?
      ensures s.threads[i].call.Scheduling? || s.threads[i].call.Connecting? ==>
        s.threads[i].call.t in s.stages && s.stages[s.threads[i].call.t].queue != [] && s.stages[s.threads[i].call.t].pool.Some?
    {
      var th := s.threads[i];
      assert ThreadOk(s, th);
      if th.base.Popped? { InState(s, i, th.base.s); }
      if th.call.Scheduling? || th.call.Connecting? {
        InState(s, i, th.call.t);
        assert StageOk(s, th.call.t);
      }
    }
    assert forall t :: t in s.stages ==> StageOk(s, t);
  }

  /** Nobody has anything left to do for stage `t`. */
  ghost predicate Quiet(s: State, t: StageId) {
    && (forall i :: 0 <= i < |s.threads| ==>
          s.threads[i].base != Popped(t) && s.threads[i].base != Handling(t)
          && !((s.threads[i].call.Scheduling? || s.threads[i].call.Connecting?) && s.threads[i].call.t == t))
    && (forall p :: p in s.pools ==> t !in s.pools[p].run)
  }

  /** When `disconnect` finishes, and as long as the stage has no pool, nothing is outstanding. */
  lemma DisconnectedIsQuiet(s0: State, steps: seq<Step>, s: State, t: StageId)
    requires Init(s0) && Run(s0, steps) == Some(s) && t in s.stages && s.stages[t].pool.None?
    ensures Quiet(s, t) && s.stages[t].dropped == 0 && !s.stages[t].connected && |s.stages[t].queue| == s.stages[t].parked
  {
    RunsKeep(s0, steps);
    assert StageOk(s, t);
    forall i | 0 <= i < |s.threads|
      ensures s.threads[i].base != Popped(t) && s.threads[i].base != Handling(t)
              && !((s.threads[i].call.Scheduling? || s.threads[i].call.Connecting?) && s.threads[i].call.t == t)
    {
      InState(s, i, t);
      assert ThreadOk(s, s.threads[i]);
    }
    forall p | p in s.pools ensures t !in s.pools[p].run { Unscheduled(s, t, p); }
  }

  /** Work on a run queue is never left to sleeping workers alone, and a waiting `disconnect` waits for something. */
  lemma NoLostWakeup(s0: State, steps: seq<Step>, s: State)
    requires Init(s0) && Run(s0, steps) == Some(s)
    ensures forall p :: p in s.pools && s.pools[p].run != [] && (exists i :: 0 <= i < |s.threads| && s.threads[i].home == Some(p)) ==>
      exists i :: 0 <= i < |s.threads| && s.threads[i].home == Some(p) && !s.threads[i].base.Waiting?
    ensures forall i :: 0 <= i < |s.threads| && s.threads[i].call.Draining? && !s.threads[i].call.signalled ==>
      s.threads[i].call.t in s.stages && s.stages[s.threads[i].call.t].ref > 0
  {
    RunsKeep(s0, steps);
    forall p | p in s.pools && s.pools[p].run != [] && exists i :: 0 <= i < |s.threads| && s.threads[i].home == Some(p)
      ensures exists i :: 0 <= i < |s.threads| && s.threads[i].home == Some(p) && !s.threads[i].base.Waiting?
    {
      assert PoolOk(s, p);
      var i :| 0 <= i < |s.threads| && s.threads[i].home == Some(p);
      SumUpdate(Workers(p), s.threads, i, s.threads[i]);
      SleepersAreWorkers(p, s.threads);
    }
    assert forall i :: 0 <= i < |s.threads| ==> ThreadOk(s, s.threads[i]);
  }

  // --- Disconnecting while `connect` is still running ---

  lemma DroppedGrows(s: State, t: StageId, step: Step)
    requires t in s.stages && Do(s, step).Some?
    ensures var s' := Do(s, step).value; t in s'.stages && s'.stages[t].dropped >= s.stages[t].dropped
  {
  }

  /** Once `connect` has dropped its backlog, `disconnect` waits for ever. */
  lemma {:induction false} DroppedIsStuck(s: State, t: StageId, more: seq<Step>)
    requires Inv(s) && t in s.stages && s.stages[t].dropped > 0 && Run(s, more).Some?
    ensures var s' := Run(s, more).value; Inv(s') && t in s'.stages && s'.stages[t].dropped > 0 && BeingDrained(s', t)
  {
    if more == [] {
      assert StageOk(s, t);
      NoDrainers(s, t);
    } else {
      var n := |more| - 1;
      DroppedIsStuck(s, t, more[..n]);
      var s1 := Run(s, more[..n]).value;
      KeepsStep(s1, more[n]);
      DroppedGrows(s1, t, more[n]);
      var s' := Do(s1, more[n]).value;
      assert StageOk(s', t);
      NoDrainers(s', t);
    }
  }

  lemma QuietRef(s: State, t: StageId)
    requires Inv(s) && t in s.stages && Quiet(s, t)
    ensures s.stages[t].ref == s.stages[t].dropped
  {
    assert StageOk(s, t);
    SumZero(Pending(t), s.threads);
    SumZero(PoppedFor(t), s.threads);
    SumZero(HandlingFor(t), s.threads);
    NoRuns(s, t);
  }

  /** Once the scheduled work is done, `disconnect` can finish if and only if nothing was dropped. */
  lemma FinishesUnlessDropped(s0: State, steps: seq<Step>, s: State, t: StageId, i: nat)
    requires Init(s0) && Run(s0, steps) == Some(s) && t in s.stages && Quiet(s, t) && DrainedBy(s, t, i)
    ensures var r := Do(s, Recheck(i));
      r.Some? && (r.value.threads[i].call == NoCall <==> s.stages[t].dropped == 0)
  {
    RunsKeep(s0, steps);
    QuietRef(s, t);
  }

  /** Nobody disconnects a stage before `connect` has come to its second look at it. */
  predicate Patient(s: State, step: Step) {
    step.Disconnect? ==> forall i :: 0 <= i < |s.threads| ==> !(s.threads[i].call.Connecting? && s.threads[i].call.t == step.t)
  }

  predicate AllPatient(s: State, steps: seq<Step>) {
    if steps == [] then true
    else
      var n := |steps| - 1;
      AllPatient(s, steps[..n]) && (Run(s, steps[..n]).Some? ==> Patient(Run(s, steps[..n]).value, steps[n]))
  }

  ghost predicate ConnectsConnected(s: State) {
    forall i :: 0 <= i < |s.threads| && s.threads[i].call.Connecting? ==>
      s.threads[i].call.t in s.stages && s.stages[s.threads[i].call.t].connected
  }

  ghost predicate NothingDropped(s: State) {
    forall t :: t in s.stages ==> s.stages[t].dropped == 0
  }

  lemma PatientStep(s: State, step: Step)
    requires ConnectsConnected(s) && NothingDropped(s) && Patient(s, step) && Do(s, step).Some?
    ensures NothingDropped(Do(s, step).value)
  {
  }

  lemma PatientEnds(s: State, step: Step)
    requires ConnectsConnected(s) && Patient(s, step) && Do(s, step).Some? && (step.Connect? || step.Disconnect?)
    ensures ConnectsConnected(Do(s, step).value)
  {
    if step.Connect? { assert DoConnect(s, step.i, step.t).Some?; } else { assert DoDisconnect(s, step.i, step.t).Some?; }
  }

  lemma PatientBetween(s: State, step: Step)
    requires ConnectsConnected(s) && Do(s, step).Some? && !step.Connect? && !step.Disconnect?
    ensures ConnectsConnected(Do(s, step).value)
  {
    match step
    case Schedule(i, wake) => assert DoSchedule(s, i, wake).Some?;
    case Release(i, wake) => assert DoRelease(s, i, wake).Some?;
    case _ =>
  }

  lemma PatientConnects(s: State, step: Step)
    requires ConnectsConnected(s) && Patient(s, step) && Do(s, step).Some?
    ensures ConnectsConnected(Do(s, step).value)
  {
    if step.Connect? || step.Disconnect? { PatientEnds(s, step); } else { PatientBetween(s, step); }
  }

  lemma {:induction false} PatientRunsDropNothing(s: State, steps: seq<Step>)
    requires Init(s) && Run(s, steps).Some? && AllPatient(s, steps)
    ensures NothingDropped(Run(s, steps).value) && ConnectsConnected(Run(s, steps).value)
  {
    if steps != [] {
      var n := |steps| - 1;
      PatientRunsDropNothing(s, steps[..n]);
      PatientStep(Run(s, steps[..n]).value, steps[n]);
      PatientConnects(Run(s, steps[..n]).value, steps[n]);
    }
  }

  predicate ConnectingTo(th: Thread, t: StageId) {
    th.call.Connecting? && th.call.t == t
  }

  /** The stage has lost its backlog, or is disconnected while `connect` has yet to look again. */
  ghost predicate Doomed(s: State, t: StageId) {
    && t in s.stages
    && (s.stages[t].dropped > 0
        || (!s.stages[t].connected && exists i :: 0 <= i < |s.threads| && ConnectingTo(s.threads[i], t)))
  }

  /** A thread in the middle of `connect` stays there until it looks again. */
  lemma ConnectingStays(s: State, step: Step, i: nat)
    requires Do(s, step).Some? && i < |s.threads| && s.threads[i].call.Connecting? && step != CheckConnected(i)
    ensures var s' := Do(s, step).value; i < |s'.threads| && s'.threads[i].call == s.threads[i].call
  {
    match step
    case Schedule(j, wake) => assert DoSchedule(s, j, wake).Some?;
    case Release(j, wake) => assert DoRelease(s, j, wake).Some?;
    case _ =>
  }

  /** Only `connect` connects a stage, and not one that is being drained. */
  lemma StaysDisconnected(s: State, step: Step, t: StageId)
    requires Do(s, step).Some? && t in s.stages && !s.stages[t].connected && BeingDrained(s, t)
    ensures var s' := Do(s, step).value; t in s'.stages && !s'.stages[t].connected
  {
    match step
    case Schedule(j, wake) => assert DoSchedule(s, j, wake).Some?;
    case Release(j, wake) => assert DoRelease(s, j, wake).Some?;
    case _ =>
  }

  lemma DropsNow(s: State, i: nat)
    requires Inv(s) && Do(s, CheckConnected(i)).Some? && !s.stages[s.threads[i].call.t].connected
    ensures Do(s, CheckConnected(i)).value.stages[s.threads[i].call.t].dropped > 0
  {
    assert ThreadOk(s, s.threads[i]);
  }

  lemma DoomedStays(s: State, step: Step, t: StageId)
    requires Inv(s) && Do(s, step).Some? && Doomed(s, t)
    ensures Doomed(Do(s, step).value, t)
  {
    DroppedGrows(s, t, step);
    if s.stages[t].dropped == 0 {
      var i: nat :| i < |s.threads| && ConnectingTo(s.threads[i], t);
      if step == CheckConnected(i) {
        DropsNow(s, i);
      } else {
        assert ThreadOk(s, s.threads[i]) && StageOk(s, t);
        InState(s, i, t);
        NoDrainers(s, t);
        StaysDisconnected(s, step, t);
        ConnectingStays(s, step, i);
        assert ConnectingTo(Do(s, step).value.threads[i], t);
      }
    }
  }

  /** Disconnecting too early dooms the stage. */
  lemma ImpatienceDooms(s: State, step: Step)
    requires Do(s, step).Some? && !Patient(s, step)
    ensures step.Disconnect? && Doomed(Do(s, step).value, step.t)
  {
    var i: nat :| i < |s.threads| && s.threads[i].call.Connecting? && s.threads[i].call.t == step.t;
    ConnectingStays(s, step, i);
    assert ConnectingTo(Do(s, step).value.threads[i], step.t);
  }

  lemma DoomedMeans(s: State)
    requires Inv(s)
    ensures (exists t :: Doomed(s, t)) <==> !(NothingDropped(s) && ConnectsConnected(s))
  {
    if !NothingDropped(s) {
      var t :| t in s.stages && s.stages[t].dropped != 0;
      assert Doomed(s, t);
    }
    if !ConnectsConnected(s) {
      var i :| 0 <= i < |s.threads| && s.threads[i].call.Connecting?
        && !(s.threads[i].call.t in s.stages && s.stages[s.threads[i].call.t].connected);
      assert ThreadOk(s, s.threads[i]) && ConnectingTo(s.threads[i], s.threads[i].call.t);
      assert Doomed(s, s.threads[i].call.t);
    }
    if t :| Doomed(s, t) {
      if s.stages[t].dropped == 0 {
        var i :| 0 <= i < |s.threads| && ConnectingTo(s.threads[i], t);
      }
    }
  }

  lemma {:induction false} ImpatientRunsDoom(s: State, steps: seq<Step>)
    requires Init(s) && Run(s, steps).Some? && !AllPatient(s, steps)
    ensures exists t :: Doomed(Run(s, steps).value, t)
  {
    var n := |steps| - 1;
    var before := Run(s, steps[..n]).value;
    if AllPatient(s, steps[..n]) {
      ImpatienceDooms(before, steps[n]);
    } else {
      ImpatientRunsDoom(s, steps[..n]);
      RunsKeep(s, steps[..n]);
      var t :| Doomed(before, t);
      DoomedStays(before, steps[n], t);
    }
  }

  /**
    The exact condition for the hang: callers wait with `disconnect` until `connect` has looked
    again, if and only if no backlog has been dropped and none is about to be.
   */
  lemma PatientExactly(s: State, steps: seq<Step>)
    requires Init(s) && Run(s, steps).Some?
    ensures AllPatient(s, steps) <==> NothingDropped(Run(s, steps).value) && ConnectsConnected(Run(s, steps).value)
  {
    RunsKeep(s, steps);
    DoomedMeans(Run(s, steps).value);
    if AllPatient(s, steps) { PatientRunsDropNothing(s, steps); } else { ImpatientRunsDoom(s, steps); }
  }

  /** Once the stage is doomed, its `disconnect` has not returned in any later state. */
  lemma {:induction false} DoomedHangs(s: State, t: StageId, more: seq<Step>)
    requires Inv(s) && Doomed(s, t) && Run(s, more).Some?
    ensures var s' := Run(s, more).value; Inv(s') && Doomed(s', t) && BeingDrained(s', t)
  {
    if more == [] {
      DoomedDrained(s, t);
    } else {
      var n := |more| - 1;
      DoomedHangs(s, t, more[..n]);
      var s1 := Run(s, more[..n]).value;
      KeepsStep(s1, more[n]);
      DoomedStays(s1, more[n], t);
      DoomedDrained(Do(s1, more[n]).value, t);
    }
  }

  lemma DoomedDrained(s: State, t: StageId)
    requires Inv(s) && Doomed(s, t)
    ensures BeingDrained(s, t)
  {
    assert StageOk(s, t);
    NoDrainers(s, t);
    if s.stages[t].dropped == 0 {
      var i: nat :| i < |s.threads| && ConnectingTo(s.threads[i], t);
      assert ThreadOk(s, s.threads[i]);
      InState(s, i, t);
    }
  }

  lemma RunSnoc(s: State, steps: seq<Step>, step: Step)
    requires Run(s, steps).Some?
    ensures Run(s, steps + [step]) == Do(Run(s, steps).value, step)
  {
    assert (steps + [step])[..|steps|] == steps;
  }

  /** Three steps in a row. */
  lemma RunThree(s: State, steps: seq<Step>, a: Step, b: Step, c: Step, s1: State, s2: State)
    requires Run(s, steps).Some? && Do(Run(s, steps).value, a) == Some(s1) && Do(s1, b) == Some(s2)
    ensures Run(s, steps + [a, b, c]) == Do(s2, c)
  {
    RunSnoc(s, steps, a);
    RunSnoc(s, steps + [a], b);
    RunSnoc(s, steps + [a] + [b], c);
    assert steps + [a] + [b] + [c] == steps + [a, b, c];
  }

  /** An impatient run: one event is queued, and `disconnect` starts before `connect` looks again. */
  lemma ImpatientRun(s0: State)
    requires s0 == State(map[0 := Stage([], false, 0, None, 0, 0, [], [])], map[0 := Pool([], 0)],
                         [Thread(None, Outside, NoCall), Thread(None, Outside, NoCall), Thread(Some(0), Ready, NoCall)])
    ensures Init(s0)
    ensures var r := Run(s0, [SetPool(0, 0), AddEvent(0, 0, 7), Connect(0, 0)] + [Disconnect(1, 0), CheckConnected(0), Fetch(2)]);
      r.Some? && 0 in r.value.stages && r.value.stages[0].dropped == 1
  {
    var idle := Thread(None, Outside, NoCall);
    var s1 := s0.(stages := s0.stages[0 := Stage([], false, 0, Some(0), 0, 0, [], [])]);
    var s2 := s1.(stages := s1.stages[0 := Stage([] + [7], false, 0, Some(0), 1, 0, [] + [7], [])]);
    var s3 := s2.(stages := s2.stages[0 := Stage([] + [7], true, 1, Some(0), 0, 0, [] + [7], [])],
                  threads := s2.threads[0 := idle.(call := Connecting(0, 1))]);
    assert [] + [SetPool(0, 0), AddEvent(0, 0, 7), Connect(0, 0)] == [SetPool(0, 0), AddEvent(0, 0, 7), Connect(0, 0)];
    RunThree(s0, [], SetPool(0, 0), AddEvent(0, 0, 7), Connect(0, 0), s1, s2);
    assert Do(s2, Connect(0, 0)) == Some(s3);
    ImpatientEnd(s3);
    var s4 := Do(s3, Disconnect(1, 0)).value;
    RunThree(s0, [SetPool(0, 0), AddEvent(0, 0, 7), Connect(0, 0)], Disconnect(1, 0), CheckConnected(0), Fetch(2),
             s4, Do(s4, CheckConnected(0)).value);
  }

  lemma ImpatientEnd(s3: State)
    requires 0 in s3.stages && s3.stages[0].connected && s3.stages[0].ref == 1 && s3.stages[0].dropped == 0
    requires |s3.threads| == 3 && s3.threads[0].call == Connecting(0, 1) && Free(s3.threads[1])
    requires s3.threads[2] == Thread(Some(0), Ready, NoCall) && 0 in s3.pools
    ensures var r4 := Do(s3, Disconnect(1, 0));
      r4.Some? && var r5 := Do(r4.value, CheckConnected(0));
      r5.Some? && var r6 := Do(r5.value, Fetch(2));
      r6.Some? && 0 in r6.value.stages && r6.value.stages[0].dropped == 1
  {
  }

  // --- What each step achieves ---

  /** All stages but `t`, all pools and all threads but `i` are as they were. */
  ghost predicate OnlyStage(s: State, s': State, i: nat, t: StageId) {
    && s'.pools == s.pools && |s'.threads| == |s.threads| && s'.stages.Keys == s.stages.Keys
    && (forall j :: 0 <= j < |s.threads| && j != i ==> s'.threads[j] == s.threads[j])
    && (forall u :: u in s.stages && u != t ==> s'.stages[u] == s.stages[u])
  }

  /** `add_event`: the event is the last of the queue; on a connected stage it is referenced and about to be scheduled. */
  lemma EventAdded(s: State, i: nat, t: StageId, e: Event)
    requires DoAddEvent(s, i, t, e).Some?
    ensures var s' := DoAddEvent(s, i, t, e).value;
      && OnlyStage(s, s', i, t)
      && var st, st' := s.stages[t], s'.stages[t];
      && st'.queue == st.queue + [e] && st'.added == st.added + [e] && st'.connected == st.connected && st'.pool == st.pool
      && st'.dropped == st.dropped && st'.taken == st.taken
      && (st.connected ==> st'.ref == st.ref + 1 && st'.parked == st.parked && s'.threads[i] == s.threads[i].(call := Scheduling(t, 1)))
      && (!st.connected ==> st'.ref == st.ref && st'.parked == st.parked + 1 && s'.threads[i] == s.threads[i])
  {
  }

  /** `connect`: everything queued is referenced and is to be scheduled after the second look. */
  lemma StageConnected(s: State, i: nat, t: StageId)
    requires DoConnect(s, i, t).Some?
    ensures var s' := DoConnect(s, i, t).value;
      && OnlyStage(s, s', i, t)
      && var st, st' := s.stages[t], s'.stages[t];
      && st'.connected && st'.ref == |st.queue| && st'.queue == st.queue && st'.pool == st.pool && st'.added == st.added
      && s'.threads[i].call == (if st.queue == [] then NoCall else Connecting(t, |st.queue|)) && s'.threads[i].base == s.threads[i].base
  {
  }

  lemma SecondLook(s: State, i: nat)
    requires DoCheckConnected(s, i).Some?
    ensures var s', t, backlog := DoCheckConnected(s, i).value, s.threads[i].call.t, s.threads[i].call.backlog;
      && OnlyStage(s, s', i, t) && s'.threads[i].base == s.threads[i].base
      && (s.stages[t].connected ==> s'.stages[t] == s.stages[t] && s'.threads[i].call == Scheduling(t, backlog))
      && (!s.stages[t].connected ==>
            s'.threads[i].call == NoCall && s'.stages[t] == s.stages[t].(dropped := s.stages[t].dropped + backlog))
  {
  }

  /**
    `schedule`: one more entry at the end of the run queue.  A sleeping worker of the pool is woken, if
    there is one, unless the queue was empty and the thread is of this pool itself.
   */
  lemma StageScheduled(s: State, i: nat, wake: Option<nat>)
    requires Inv(s) && DoSchedule(s, i, wake).Some?
    ensures var s', t, left := DoSchedule(s, i, wake).value, s.threads[i].call.t, s.threads[i].call.left;
      && s'.stages == s.stages && |s'.threads| == |s.threads|
      && var p := s.stages[t].pool.value;
      && s'.pools == s.pools[p := s.pools[p].(run := s.pools[p].run + [t])]
      && s'.threads[i].call == (if left == 1 then NoCall else Scheduling(t, left - 1)) && s'.threads[i].base == s.threads[i].base
      && (forall j :: 0 <= j < |s.threads| && j != i ==>
            if wake == Some(j) then s.threads[j].base == Waiting && s'.threads[j] == s.threads[j].(base := Notified)
            else s'.threads[j] == s.threads[j])
      && (wake.Some? <==> (s.pools[p].run != [] || s.threads[i].home != Some(p))
                          && exists j :: 0 <= j < |s.threads| && s.threads[j].home == Some(p) && s.threads[j].base == Waiting)
  {
    var p := s.stages[s.threads[i].call.t].pool.value;
    assert ThreadOk(s, s.threads[i]) && PoolOk(s, p);
    if j :| 0 <= j < |s.threads| && s.threads[j].home == Some(p) && s.threads[j].base == Waiting {
      SumUpdate(Idle(p), s.threads, j, s.threads[j]);
    }
  }

  /** A worker takes the first entry of its run queue, or goes to sleep when there is none. */
  lemma WorkerFetches(s: State, i: nat)
    requires DoFetch(s, i).Some?
    ensures var s', p := DoFetch(s, i).value, s.threads[i].home.value;
      && s'.stages == s.stages && |s'.threads| == |s.threads| && p in s.pools && p in s'.pools
      && (forall j :: 0 <= j < |s.threads| && j != i ==> s'.threads[j] == s.threads[j])
      && (forall q :: q in s.pools && q != p ==> q in s'.pools && s'.pools[q] == s.pools[q])
      && s'.threads[i].call == s.threads[i].call && s'.threads[i].home == s.threads[i].home
      && (if s.pools[p].run == [] then s'.threads[i].base == Waiting && s'.pools[p].run == []
          else s'.threads[i].base == Popped(s.pools[p].run[0]) && s'.pools[p].run == s.pools[p].run[1..])
  {
  }

  /** A worker that has taken a stage takes its first event. */
  lemma WorkerTakes(s: State, i: nat)
    requires DoRemove(s, i).Some?
    ensures var s', t := DoRemove(s, i).value, s.threads[i].base.s;
      && OnlyStage(s, s', i, t) && s'.threads[i] == s.threads[i].(base := Handling(t))
      && s.stages[t].queue == [s'.stages[t].taken[|s.stages[t].taken|]] + s'.stages[t].queue
      && |s'.stages[t].taken| == |s.stages[t].taken| + 1 && s.stages[t].taken <= s'.stages[t].taken
      && s'.stages[t].ref == s.stages[t].ref && s'.stages[t].connected == s.stages[t].connected && s'.stages[t].added == s.stages[t].added
  {
  }

  /** `disconnect` and its wake-ups: finished when nothing is referenced, and waiting otherwise. */
  lemma StageDisconnects(s: State, i: nat, t: StageId)
    ensures DoDisconnect(s, i, t).Some? ==> var s' := DoDisconnect(s, i, t).value;
      && OnlyStage(s, s', i, t) && !s'.stages[t].connected && s'.stages[t].ref == s.stages[t].ref && s'.stages[t].queue == s.stages[t].queue
      && (if s.stages[t].ref > 0 then s'.threads[i].call == Draining(t, false) && s'.stages[t].pool == s.stages[t].pool
          else s'.threads[i].call == NoCall && s'.stages[t].pool == None)
    ensures DoRecheck(s, i).Some? && s.threads[i].call.t == t ==> var s' := DoRecheck(s, i).value;
      && OnlyStage(s, s', i, t) && s'.stages[t].connected == s.stages[t].connected && s'.stages[t].queue == s.stages[t].queue
      && (if s.stages[t].ref > 0 then s'.threads[i].call == Draining(t, false) && s'.stages[t].pool == s.stages[t].pool
          else s'.threads[i].call == NoCall && s'.stages[t].pool == None)
  {
  }

  /** `release_event`: one reference less, and the last one of a disconnected stage wakes its `disconnect`. */
  lemma EventReleased(s: State, i: nat, wake: Option<nat>)
    requires DoRelease(s, i, wake).Some?
    ensures var s', t := DoRelease(s, i, wake).value, s.threads[i].base.s;
      && s'.pools == s.pools && |s'.threads| == |s.threads| && s'.stages == s.stages[t := s.stages[t].(ref := s.stages[t].ref - 1)]
      && s'.threads[i].base == Ready && s'.threads[i].home == s.threads[i].home
      && (forall j :: 0 <= j < |s.threads| && j != i ==>
            if wake == Some(j) then s.threads[j].call == Draining(t, false) && s'.threads[j] == s.threads[j].(call := Draining(t, true))
            else s'.threads[j] == s.threads[j])
      && (wake.Some? <==> !s.stages[t].connected && s.stages[t].ref == 1
                          && exists j :: 0 <= j < |s.threads| && s.threads[j].call == Draining(t, false))
  {
  }

  /** Nobody is stuck in the middle of a call: whoever has to schedule or to release can, with some wake-up. */
  lemma CallsGoOn(s: State, i: nat) returns (wake: Option<nat>)
    requires Inv(s) && i < |s.threads|
    ensures s.threads[i].call.Scheduling? ==> DoSchedule(s, i, wake).Some?
    ensures s.threads[i].call.Connecting? ==> DoCheckConnected(s, i).Some?
    ensures s.threads[i].call.Draining? ==> DoRecheck(s, i).Some?
    ensures s.threads[i].call == NoCall && s.threads[i].base.Handling? ==> DoRelease(s, i, wake).Some?
    ensures s.threads[i].base.Ready? || s.threads[i].base.Waiting? || s.threads[i].base.Notified? ==> DoFetch(s, i).Some?
    ensures s.threads[i].base.Popped? ==> DoRemove(s, i).Some?
  {
    var th := s.threads[i];
    assert ThreadOk(s, th);
    wake := None;
    if th.base.Popped? { InState(s, i, th.base.s); }
    if th.call.Scheduling? {
      InState(s, i, th.call.t);
      assert StageOk(s, th.call.t);
      wake := ScheduleWake(s, i);
    } else if th.call == NoCall && th.base.Handling? {
      wake := ReleaseWake(s, i);
    }
  }

  lemma ScheduleWake(s: State, i: nat) returns (wake: Option<nat>)
    requires Inv(s) && i < |s.threads| && s.threads[i].call.Scheduling? && s.threads[i].call.t in s.stages
    requires s.stages[s.threads[i].call.t].pool.Some? && s.stages[s.threads[i].call.t].pool.value in s.pools
    ensures DoSchedule(s, i, wake).Some?
  {
    var p := s.stages[s.threads[i].call.t].pool.value;
    assert ThreadOk(s, s.threads[i]);
    wake := None;
    if (s.pools[p].run != [] || s.threads[i].home != Some(p)) && s.pools[p].idles > 0 {
      if j: nat :| j < |s.threads| && s.threads[j].home == Some(p) && s.threads[j].base == Waiting { wake := Some(j); }
    }
  }

  lemma ReleaseWake(s: State, i: nat) returns (wake: Option<nat>)
    requires Inv(s) && i < |s.threads| && s.threads[i].call == NoCall && s.threads[i].base.Handling?
    ensures DoRelease(s, i, wake).Some?
  {
    var t := s.threads[i].base.s;
    assert ThreadOk(s, s.threads[i]);
    var threads := s.threads[i := s.threads[i].(base := Ready)];
    wake := None;
    if !s.stages[t].connected && s.stages[t].ref == 1 {
      if j: nat :| j < |threads| && threads[j].call == Draining(t, false) { wake := Some(j); }
    }
  }

  // --- Connecting while `disconnect` is still waiting ---

  /** The steps as the source guards them. */
  function Raw(s: State, step: Step): Option<State> {
    match step
    case SetPool(t, p) => RawSetPool(s, t, p)
    case Connect(i, t) => RawConnect(s, i, t)
    case _ => Do(s, step)
  }

  function RawRun(s: State, steps: seq<Step>): Option<State> {
    if steps == [] then Some(s)
    else
      var s' :- RawRun(s, steps[..|steps| - 1]);
      Raw(s', steps[|steps| - 1])
  }

  /**
    Nobody connects a stage while a `disconnect` of it is waiting, or gives it another pool while it
    is on the run queue of its own.
   */
  predicate Undisturbed(s: State, step: Step) {
    match step
    case SetPool(t, p) => t in s.stages ==> s.stages[t].pool == Some(p) || Runs(s, t) == 0
    case Connect(_, t) => !BeingDrained(s, t)
    case _ => true
  }

  lemma RawIs(s: State, step: Step)
    ensures Do(s, step) == if Undisturbed(s, step) then Raw(s, step) else None
  {
  }

  /** A step that the source admits keeps the invariant if and only if it is undisturbed. */
  lemma RawStepExact(s: State, step: Step)
    requires Inv(s) && Raw(s, step).Some?
    ensures Inv(Raw(s, step).value) <==> Undisturbed(s, step)
  {
    RawIs(s, step);
    var s' := Raw(s, step).value;
    if Undisturbed(s, step) {
      KeepsStep(s, step);
    } else if step.Connect? {
      NoDrainers(s, step.t);
      SumUpdate(Drainers(step.t), s.threads, step.i, s'.threads[step.i]);
      assert !StageOk(s', step.t);
    } else {
      var q := s.stages[step.t].pool.value;
      assert step.t in multiset(s.pools[q].run) && step.t in s'.pools[q].run && s'.stages[step.t].pool != Some(q);
      assert !PoolOk(s', q);
    }
  }

  predicate AllUndisturbed(s: State, steps: seq<Step>) {
    if steps == [] then true
    else
      var n := |steps| - 1;
      AllUndisturbed(s, steps[..n]) && (RawRun(s, steps[..n]).Some? ==> Undisturbed(RawRun(s, steps[..n]).value, steps[n]))
  }

  /** The invariant holds in every state of the run. */
  ghost predicate KeepsThroughout(s: State, steps: seq<Step>) {
    var r := RawRun(s, steps);
    r.Some? && Inv(r.value) && (steps != [] ==> KeepsThroughout(s, steps[..|steps| - 1]))
  }

  /**
    Whole runs of the steps that the source admits: the invariant holds throughout, if and only if
    every step is undisturbed; and then they are the runs that all results are about.
   */
  lemma {:induction false} RawExact(s: State, steps: seq<Step>)
    requires Init(s) && RawRun(s, steps).Some?
    ensures KeepsThroughout(s, steps) <==> AllUndisturbed(s, steps)
    ensures AllUndisturbed(s, steps) ==> Run(s, steps) == RawRun(s, steps)
  {
    if steps == [] {
      Starts(s);
    } else {
      var n := |steps| - 1;
      RawExact(s, steps[..n]);
      if AllUndisturbed(s, steps[..n]) {
        RawIs(RawRun(s, steps[..n]).value, steps[n]);
        RawStepExact(RawRun(s, steps[..n]).value, steps[n]);
      }
    }
  }

  /** Reconnected while a handler is at work, a stage with nothing queued has its reference count below zero after the release. */
  lemma ReconnectMiscounts(s: State, i: nat, j: nat, t: StageId)
    requires RawConnect(s, i, t).Some? && s.stages[t].queue == [] && i != j
    requires j < |s.threads| && s.threads[j].base == Handling(t) && s.threads[j].call == NoCall
    ensures var s1 := Raw(s, Connect(i, t)).value;
      var s2 := Raw(s1, Release(j, None));
      s2.Some? && t in s2.value.stages && s2.value.stages[t].ref == -1
  {
  }

  lemma RawSnoc(s: State, steps: seq<Step>, step: Step)
    requires RawRun(s, steps).Some?
    ensures RawRun(s, steps + [step]) == Raw(RawRun(s, steps).value, step)
  {
    assert (steps + [step])[..|steps|] == steps;
  }

  lemma RawThree(s: State, steps: seq<Step>, a: Step, b: Step, c: Step, s1: State, s2: State)
    requires RawRun(s, steps).Some? && Raw(RawRun(s, steps).value, a) == Some(s1) && Raw(s1, b) == Some(s2)
    ensures RawRun(s, steps + [a, b, c]) == Raw(s2, c)
  {
    RawSnoc(s, steps, a);
    RawSnoc(s, steps + [a], b);
    RawSnoc(s, steps + [a] + [b], c);
    assert steps + [a] + [b] + [c] == steps + [a, b, c];
  }

  /** Stage 0 on pool 0, and the threads of the run below: two callers and a worker. */
  predicate At(s: State, st: Stage, run: seq<StageId>, first: Call, second: Call, worker: Base) {
    && 0 in s.stages && s.stages[0] == st && 0 in s.pools && s.pools[0] == Pool(run, 0)
    && |s.threads| == 3 && s.threads[0] == Thread(None, Outside, first) && s.threads[1] == Thread(None, Outside, second)
    && s.threads[2] == Thread(Some(0), worker, NoCall)
  }

  /** An event is queued, and the stage connected. */
  lemma EventQueued(s: State) returns (s1: State, s2: State, s3: State)
    requires At(s, Stage([], false, 0, None, 0, 0, [], []), [], NoCall, NoCall, Ready)
    ensures Raw(s, SetPool(0, 0)) == Some(s1) && Raw(s1, AddEvent(0, 0, 7)) == Some(s2) && Raw(s2, Connect(0, 0)) == Some(s3)
    ensures At(s3, Stage([7], true, 1, Some(0), 0, 0, [7], []), [], Connecting(0, 1), NoCall, Ready)
  {
    s1 := Raw(s, SetPool(0, 0)).value;
    assert At(s1, Stage([], false, 0, Some(0), 0, 0, [], []), [], NoCall, NoCall, Ready);
    s2 := Raw(s1, AddEvent(0, 0, 7)).value;
    assert [] + [7] == [7] && At(s2, Stage([7], false, 0, Some(0), 1, 0, [7], []), [], NoCall, NoCall, Ready);
    s3 := Raw(s2, Connect(0, 0)).value;
  }

  /** The event is scheduled, and the worker takes the stage. */
  lemma EventScheduled(s: State) returns (s1: State, s2: State, s3: State)
    requires At(s, Stage([7], true, 1, Some(0), 0, 0, [7], []), [], Connecting(0, 1), NoCall, Ready)
    ensures Raw(s, CheckConnected(0)) == Some(s1) && Raw(s1, Schedule(0, None)) == Some(s2) && Raw(s2, Fetch(2)) == Some(s3)
    ensures At(s3, Stage([7], true, 1, Some(0), 0, 0, [7], []), [], NoCall, NoCall, Popped(0))
  {
    var st := Stage([7], true, 1, Some(0), 0, 0, [7], []);
    s1 := Raw(s, CheckConnected(0)).value;
    assert At(s1, st, [], Scheduling(0, 1), NoCall, Ready);
    s2 := Raw(s1, Schedule(0, None)).value;
    assert [] + [0] == [0] && At(s2, st, [0], NoCall, NoCall, Ready);
    s3 := Raw(s2, Fetch(2)).value;
    assert [0][1..] == [];
  }

  /** The worker handles the event while the stage is disconnected, and connected again. */
  lemma EventHandled(s: State) returns (s1: State, s2: State, s3: State)
    requires At(s, Stage([7], true, 1, Some(0), 0, 0, [7], []), [], NoCall, NoCall, Popped(0))
    ensures Raw(s, Remove(2)) == Some(s1) && Raw(s1, Disconnect(1, 0)) == Some(s2) && Raw(s2, Connect(0, 0)) == Some(s3)
    ensures Raw(s3, Release(2, None)).Some? && Raw(s3, Release(2, None)).value.stages[0].ref == -1
  {
    s1 := Raw(s, Remove(2)).value;
    assert [7][1..] == [] && [] + [7] == [7];
    assert At(s1, Stage([], true, 1, Some(0), 0, 0, [7], [7]), [], NoCall, NoCall, Handling(0));
    s2 := Raw(s1, Disconnect(1, 0)).value;
    assert At(s2, Stage([], false, 1, Some(0), 0, 0, [7], [7]), [], NoCall, Draining(0, false), Handling(0));
    s3 := Raw(s2, Connect(0, 0)).value;
    ReconnectMiscounts(s2, 0, 2, 0);
  }

  lemma RawThen(s0: State, steps: seq<Step>, more: seq<Step>, s: State, s1: State, s2: State, s3: State)
    requires RawRun(s0, steps) == Some(s) && |more| == 3
    requires Raw(s, more[0]) == Some(s1) && Raw(s1, more[1]) == Some(s2) && Raw(s2, more[2]) == Some(s3)
    ensures RawRun(s0, steps + more) == Some(s3)
  {
    RawThree(s0, steps, more[0], more[1], more[2], s1, s2);
    assert more == [more[0], more[1], more[2]];
  }

  lemma ReconnectFirst(s0: State, a: seq<Step>) returns (s: State)
    requires At(s0, Stage([], false, 0, None, 0, 0, [], []), [], NoCall, NoCall, Ready)
    requires a == [SetPool(0, 0), AddEvent(0, 0, 7), Connect(0, 0)]
    ensures RawRun(s0, a) == Some(s) && At(s, Stage([7], true, 1, Some(0), 0, 0, [7], []), [], Connecting(0, 1), NoCall, Ready)
  {
    var s1, s2, s3 := EventQueued(s0);
    assert [] + a == a;
    RawThen(s0, [], a, s0, s1, s2, s3);
    s := s3;
  }

  lemma ReconnectSecond(s0: State, a: seq<Step>, s: State, b: seq<Step>) returns (s': State)
    requires RawRun(s0, a) == Some(s) && At(s, Stage([7], true, 1, Some(0), 0, 0, [7], []), [], Connecting(0, 1), NoCall, Ready)
    requires b == [CheckConnected(0), Schedule(0, None), Fetch(2)]
    ensures RawRun(s0, a + b) == Some(s') && At(s', Stage([7], true, 1, Some(0), 0, 0, [7], []), [], NoCall, NoCall, Popped(0))
  {
    var s4, s5, s6 := EventScheduled(s);
    RawThen(s0, a, b, s, s4, s5, s6);
    s' := s6;
  }

  lemma ReconnectThird(s0: State, ab: seq<Step>, s: State, c: seq<Step>)
    requires RawRun(s0, ab) == Some(s) && At(s, Stage([7], true, 1, Some(0), 0, 0, [7], []), [], NoCall, NoCall, Popped(0))
    requires c == [Remove(2), Disconnect(1, 0), Connect(0, 0)]
    ensures var r := RawRun(s0, ab + c + [Release(2, None)]); r.Some? && 0 in r.value.stages && r.value.stages[0].ref == -1
  {
    var s7, s8, s9 := EventHandled(s);
    RawThen(s0, ab, c, s, s7, s8, s9);
    RawSnoc(s0, ab + c, Release(2, None));
  }

  /** A run that the source admits, with a second `connect` while `disconnect` waits: the reference count ends at -1. */
  lemma ReconnectRun(s0: State, a: seq<Step>, b: seq<Step>, c: seq<Step>)
    requires Init(s0) && At(s0, Stage([], false, 0, None, 0, 0, [], []), [], NoCall, NoCall, Ready)
    requires a == [SetPool(0, 0), AddEvent(0, 0, 7), Connect(0, 0)] && b == [CheckConnected(0), Schedule(0, None), Fetch(2)]
    requires c == [Remove(2), Disconnect(1, 0), Connect(0, 0)]
    ensures var r := RawRun(s0, a + b + c + [Release(2, None)]); r.Some? && 0 in r.value.stages && r.value.stages[0].ref == -1
  {
    var s3 := ReconnectFirst(s0, a);
    var s6 := ReconnectSecond(s0, a, s3, b);
    ReconnectThird(s0, a + b, s6, c);
  }
}
