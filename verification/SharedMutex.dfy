/**
  `RecursiveSharedMutex` (deps/common/lang/mutex.cpp): a read-write lock whose write lock its owner
  may take again.  One step is one stretch of a call under the inner mutex: from taking it to
  returning or to waiting on a condition variable.
 */
module SharedMutex {
  import opened Options

  /** A thread waiting on a condition variable; `signalled` once it was notified. */
  datatype Place = Outside | WaitRead(signalled: bool) | WaitWrite(signalled: bool)

  /** `readings` and `writings` are history: the lock calls that returned and have not been undone. */
  datatype Thread = Thread(at: Place, readings: nat, writings: nat)

  /** `shared` is `shared_lock_count_`, `exclusive` is `exclusive_lock_count_`. */
  datatype State = State(shared: int, exclusive: int, owner: Option<nat>, count: int, threads: seq<Thread>)

  /** `wake` is the writer that `notify_one` reaches. */
  datatype Step =
    | LockShared(i: nat)
    | TryLockShared(i: nat)
    | UnlockShared(i: nat, wake: Option<nat>)
    | Lock(i: nat)
    | Unlock(i: nat, wake: Option<nat>)

  predicate NotifyOne(threads: seq<Thread>, wake: Option<nat>) {
    match wake
    case Some(j) => j < |threads| && threads[j].at == WaitWrite(false)
    case None => forall j :: 0 <= j < |threads| ==> threads[j].at != WaitWrite(false)
  }

  function Woken(threads: seq<Thread>, wake: Option<nat>): seq<Thread>
    requires NotifyOne(threads, wake)
  {
    if wake.Some? then threads[wake.value := threads[wake.value].(at := WaitWrite(true))] else threads
  }

  /** `notify_all` on the readers. */
  function ReadersWoken(threads: seq<Thread>): (r: seq<Thread>)
    ensures |r| == |threads|
    ensures forall j :: 0 <= j < |r| ==> r[j] == (if threads[j].at.WaitRead? then threads[j].(at := WaitRead(true)) else threads[j])
  {
    seq(|threads|, j requires 0 <= j < |threads| =>
      if threads[j].at.WaitRead? then threads[j].(at := WaitRead(true)) else threads[j])
  }

  /** From the call or from a wake-up, signalled or not, through one test of the loop condition. */
  function DoLockShared(s: State, i: nat): Option<State> {
    if i >= |s.threads| || s.threads[i].at.WaitWrite? then None
    else
      var th := s.threads[i];
      if s.exclusive > 0 then Some(s.(threads := s.threads[i := th.(at := WaitRead(false))]))
      else Some(s.(shared := s.shared + 1, threads := s.threads[i := th.(at := Outside, readings := th.readings + 1)]))
  }

  function DoTryLockShared(s: State, i: nat): Option<(State, bool)> {
    if i >= |s.threads| || !s.threads[i].at.Outside? then None
    else if s.exclusive == 0 then
      Some((s.(shared := s.shared + 1, threads := s.threads[i := s.threads[i].(readings := s.threads[i].readings + 1)]), true))
    else Some((s, false))
  }

  /** Callers undo only what they did. */
  function DoUnlockShared(s: State, i: nat, wake: Option<nat>): Option<State> {
    if i >= |s.threads| || !s.threads[i].at.Outside? || s.threads[i].readings == 0 then None
    else
      var shared := s.shared - 1;
      var threads := s.threads[i := s.threads[i].(readings := s.threads[i].readings - 1)];
      if shared == 0 then
        if NotifyOne(threads, wake) then Some(s.(shared := shared, threads := Woken(threads, wake))) else None
      else if wake.Some? then None
      else Some(s.(shared := shared, threads := threads))
  }

  function DoLock(s: State, i: nat): Option<State> {
    if i >= |s.threads| || s.threads[i].at.WaitRead? then None
    else
      var th := s.threads[i];
      if s.shared > 0 || s.exclusive > 0 then
        if s.owner == Some(i) then
          Some(s.(count := s.count + 1, threads := s.threads[i := th.(at := Outside, writings := th.writings + 1)]))
        else Some(s.(threads := s.threads[i := th.(at := WaitWrite(false))]))
      else
        Some(State(s.shared, s.exclusive + 1, Some(i), 1, s.threads[i := th.(at := Outside, writings := th.writings + 1)]))
  }

  function DoUnlock(s: State, i: nat, wake: Option<nat>): Option<State> {
    if i >= |s.threads| || !s.threads[i].at.Outside? || s.threads[i].writings == 0 then None
    else
      var threads := s.threads[i := s.threads[i].(writings := s.threads[i].writings - 1)];
      if s.owner == Some(i) && s.count > 1 then
        if wake.Some? then None else Some(s.(count := s.count - 1, threads := threads))
      else
        var exclusive := s.exclusive - 1;
        if exclusive == 0 then
          var woken := ReadersWoken(threads);
          if NotifyOne(woken, wake) then Some(State(s.shared, exclusive, None, 0, Woken(woken, wake))) else None
        else if wake.Some? then None
        else Some(State(s.shared, exclusive, None, 0, threads))
  }

  function Do(s: State, step: Step): Option<State> {
    match step
    case LockShared(i) => DoLockShared(s, i)
    case TryLockShared(i) => (var r := DoTryLockShared(s, i); if r.Some? then Some(r.value.0) else None)
    case UnlockShared(i, wake) => DoUnlockShared(s, i, wake)
    case Lock(i) => DoLock(s, i)
    case Unlock(i, wake) => DoUnlock(s, i, wake)
  }

  function Run(s: State, steps: seq<Step>): Option<State> {
    if steps == [] then Some(s)
    else
      var s' :- Run(s, steps[..|steps| - 1]);
      Do(s', steps[|steps| - 1])
  }

  predicate Init(s: State) {
    && s.shared == s.exclusive == s.count == 0 && s.owner == None
    && forall i :: 0 <= i < |s.threads| ==> s.threads[i] == Thread(Outside, 0, 0)
  }

  // --- The invariant ---

  /** All read locks held. */
  function Reads(threads: seq<Thread>): nat {
    if threads == [] then 0 else threads[0].readings + Reads(threads[1..])
  }

  lemma {:induction false} ReadsUpdate(threads: seq<Thread>, i: nat, th: Thread)
    requires i < |threads|
    ensures Reads(threads[i := th]) == Reads(threads) - threads[i].readings + th.readings
    ensures threads[i].readings <= Reads(threads)
  {
    if i == 0 {
      assert threads[0 := th][1..] == threads[1..];
    } else {
      assert threads[i := th][1..] == threads[1..][i - 1 := th];
      ReadsUpdate(threads[1..], i - 1, th);
    }
  }

  lemma {:induction false} ReadsSame(a: seq<Thread>, b: seq<Thread>)
    requires |a| == |b| && forall j :: 0 <= j < |a| ==> a[j].readings == b[j].readings
    ensures Reads(a) == Reads(b)
  {
    if a != [] { ReadsSame(a[1..], b[1..]); }
  }

  /** The counters say who holds what; the write lock excludes everything else. */
  ghost predicate Held(s: State) {
    && s.shared == Reads(s.threads)
    && (s.owner.None? ==> s.exclusive == 0 && s.count == 0)
    && (s.owner.Some? ==> s.exclusive == 1 && s.shared == 0 && s.owner.value < |s.threads|
                          && s.count == s.threads[s.owner.value].writings > 0
                          && s.threads[s.owner.value].at != WaitWrite(true) && s.threads[s.owner.value].at != WaitWrite(false))
    && (forall i :: 0 <= i < |s.threads| && s.owner != Some(i) ==> s.threads[i].writings == 0)
  }

  predicate Blocked(th: Thread) {
    th.at == WaitWrite(false)
  }

  predicate Signalled(th: Thread) {
    th.at == WaitWrite(true)
  }

  /**
    When nothing is held, a blocked writer is not alone: some other writer was notified and will
    look again.  No reader is blocked while no writer holds the lock.
   */
  ghost predicate Attentive(s: State) {
    && (s.shared == 0 && s.exclusive == 0 && (exists i :: 0 <= i < |s.threads| && Blocked(s.threads[i])) ==>
          exists i :: 0 <= i < |s.threads| && Signalled(s.threads[i]))
    && (s.exclusive == 0 ==> forall i :: 0 <= i < |s.threads| ==> s.threads[i].at != WaitRead(false))
  }

  ghost predicate Inv(s: State) {
    Held(s) && Attentive(s)
  }

  // --- Every step keeps it ---

  lemma HeldLockShared(s: State, i: nat)
    requires Inv(s) && DoLockShared(s, i).Some?
    ensures Held(DoLockShared(s, i).value)
  {
    ReadsUpdate(s.threads, i, DoLockShared(s, i).value.threads[i]);
  }

  lemma KeepsLockShared(s: State, i: nat)
    requires Inv(s) && DoLockShared(s, i).Some?
    ensures Inv(DoLockShared(s, i).value)
  {
    HeldLockShared(s, i);
  }

  lemma KeepsTryLockShared(s: State, i: nat)
    requires Inv(s) && DoTryLockShared(s, i).Some?
    ensures Inv(DoTryLockShared(s, i).value.0)
  {
    ReadsUpdate(s.threads, i, s.threads[i].(readings := s.threads[i].readings + 1));
  }

  /** Notifying changes where threads wait, and nothing they hold. */
  lemma WokenHeld(s: State, threads: seq<Thread>)
    requires Held(s) && |threads| == |s.threads|
    requires forall j :: 0 <= j < |threads| ==>
      && threads[j].readings == s.threads[j].readings && threads[j].writings == s.threads[j].writings
      && (threads[j].at.WaitWrite? <==> s.threads[j].at.WaitWrite?)
    ensures Held(s.(threads := threads))
  {
    ReadsSame(s.threads, threads);
  }

  lemma KeepsUnlockShared(s: State, i: nat, wake: Option<nat>)
    requires Inv(s) && DoUnlockShared(s, i, wake).Some?
    ensures Inv(DoUnlockShared(s, i, wake).value)
  {
    var th := s.threads[i].(readings := s.threads[i].readings - 1);
    var s1 := s.(shared := s.shared - 1, threads := s.threads[i := th]);
    ReadsUpdate(s.threads, i, th);
    assert Held(s1);
    if s1.shared == 0 {
      WokenHeld(s1, Woken(s1.threads, wake));
      Notified(s1, wake);
    }
  }

  lemma Notified(s: State, wake: Option<nat>)
    requires NotifyOne(s.threads, wake)
    requires s.exclusive == 0 ==> forall i :: 0 <= i < |s.threads| ==> s.threads[i].at != WaitRead(false)
    ensures Attentive(s.(threads := Woken(s.threads, wake)))
  {
    var threads := Woken(s.threads, wake);
    if wake.Some? { assert Signalled(threads[wake.value]); }
  }

  lemma KeepsLock(s: State, i: nat)
    requires Inv(s) && DoLock(s, i).Some?
    ensures Inv(DoLock(s, i).value)
  {
    var s' := DoLock(s, i).value;
    ReadsUpdate(s.threads, i, s'.threads[i]);
  }

  lemma KeepsUnlock(s: State, i: nat, wake: Option<nat>)
    requires Inv(s) && DoUnlock(s, i, wake).Some?
    ensures Inv(DoUnlock(s, i, wake).value)
  {
    var th := s.threads[i].(writings := s.threads[i].writings - 1);
    var threads := s.threads[i := th];
    ReadsUpdate(s.threads, i, th);
    if s.count > 1 {
      assert Held(s.(count := s.count - 1, threads := threads));
    } else {
      var s1 := State(s.shared, 0, None, 0, threads);
      assert Held(s1);
      var s2 := s1.(threads := ReadersWoken(threads));
      WokenHeld(s1, s2.threads);
      WokenHeld(s2, Woken(s2.threads, wake));
      Notified(s2, wake);
    }
  }

  lemma KeepsStep(s: State, step: Step)
    requires Inv(s) && Do(s, step).Some?
    ensures Inv(Do(s, step).value)
  {
    match step
    case LockShared(i) => KeepsLockShared(s, i);
    case TryLockShared(i) => KeepsTryLockShared(s, i);
    case UnlockShared(i, wake) => KeepsUnlockShared(s, i, wake);
    case Lock(i) => KeepsLock(s, i);
    case Unlock(i, wake) => KeepsUnlock(s, i, wake);
  }

  lemma {:induction false} NoReads(threads: seq<Thread>)
    requires forall i :: 0 <= i < |threads| ==> threads[i].readings == 0
    ensures Reads(threads) == 0
  {
    if threads != [] { NoReads(threads[1..]); }
  }

  /** Every state of every run keeps the invariant. */
  lemma {:induction false} RunsKeep(s: State, steps: seq<Step>)
    requires Init(s) && Run(s, steps).Some?
    ensures Inv(Run(s, steps).value)
  {
    if steps == [] {
      NoReads(s.threads);
    } else {
      RunsKeep(s, steps[..|steps| - 1]);
      KeepsStep(Run(s, steps[..|steps| - 1]).value, steps[|steps| - 1]);
    }
  }

  // --- What follows for every run ---

  /** Mutual exclusion: a thread that holds the write lock holds it alone, and the count is its own. */
  lemma Exclusion(s0: State, steps: seq<Step>, s: State, i: nat, j: nat)
    requires Init(s0) && Run(s0, steps) == Some(s) && i < |s.threads| && j < |s.threads|
    ensures s.threads[i].writings > 0 ==> s.threads[j].readings == 0
    ensures s.threads[i].writings > 0 && s.threads[j].writings > 0 ==> i == j
    ensures s.threads[i].writings > 0 ==> s.owner == Some(i) && s.count == s.threads[i].writings
  {
    RunsKeep(s0, steps);
    ReadsUpdate(s.threads, j, s.threads[j]);
  }

  /** While no writer holds the lock, every waiting reader has been notified, and its next look succeeds. */
  lemma NoLostReader(s0: State, steps: seq<Step>, s: State, i: nat)
    requires Init(s0) && Run(s0, steps) == Some(s) && s.exclusive == 0 && i < |s.threads| && s.threads[i].at.WaitRead?
    ensures s.threads[i].at.signalled
    ensures var r := DoLockShared(s, i); r.Some? && r.value.threads[i].readings == s.threads[i].readings + 1
  {
    RunsKeep(s0, steps);
  }

  /** When the lock is free and a writer waits, some writer has been notified, and its next look succeeds. */
  lemma NoLostWriter(s0: State, steps: seq<Step>, s: State, i: nat) returns (j: nat)
    requires Init(s0) && Run(s0, steps) == Some(s) && s.shared == s.exclusive == 0
    requires i < |s.threads| && s.threads[i].at.WaitWrite?
    ensures j < |s.threads| && Signalled(s.threads[j])
    ensures var r := DoLock(s, j); r.Some? && r.value.owner == Some(j)
  {
    RunsKeep(s0, steps);
    assert Blocked(s.threads[i]) || Signalled(s.threads[i]);
    j :| 0 <= j < |s.threads| && Signalled(s.threads[j]);
  }

  /** A thread waits for a write lock while it holds a read lock, or for a read lock while it holds the write lock. */
  predicate Upgrading(th: Thread) {
    (th.at.WaitWrite? && th.readings > 0) || (th.at.WaitRead? && th.writings > 0)
  }

  lemma UpgradeStep(s: State, step: Step, i: nat)
    requires Inv(s) && Do(s, step).Some? && i < |s.threads| && Upgrading(s.threads[i])
    ensures var s' := Do(s, step).value; i < |s'.threads| && Upgrading(s'.threads[i])
  {
    ReadsUpdate(s.threads, i, s.threads[i]);
  }

  /** The header forbids it for a reason: such a thread waits for ever. */
  lemma {:induction false} UpgradesBlock(s: State, steps: seq<Step>, i: nat)
    requires Inv(s) && Run(s, steps).Some? && i < |s.threads| && Upgrading(s.threads[i])
    ensures var s' := Run(s, steps).value; Inv(s') && i < |s'.threads| && Upgrading(s'.threads[i])
  {
    if steps != [] {
      var n := |steps| - 1;
      UpgradesBlock(s, steps[..n], i);
      UpgradeStep(Run(s, steps[..n]).value, steps[n], i);
      KeepsStep(Run(s, steps[..n]).value, steps[n]);
    }
  }

  /** That is what comes of asking for the other lock. */
  lemma UpgradeArises(s: State, i: nat)
    requires Inv(s) && i < |s.threads| && s.threads[i].at.Outside?
    ensures s.threads[i].readings > 0 && DoLock(s, i).Some? ==> Upgrading(DoLock(s, i).value.threads[i])
    ensures s.threads[i].writings > 0 && DoLockShared(s, i).Some? ==> Upgrading(DoLockShared(s, i).value.threads[i])
  {
    ReadsUpdate(s.threads, i, s.threads[i]);
  }

  // --- What each call achieves ---

  /** The same thread but for what it holds; all others hold what they held. */
  predicate Holds(s: State, s': State, i: nat, readings: int, writings: int) {
    && |s'.threads| == |s.threads| && i < |s.threads|
    && s'.threads[i].readings == readings && s'.threads[i].writings == writings
    && (forall j :: 0 <= j < |s.threads| && j != i ==>
          s'.threads[j].readings == s.threads[j].readings && s'.threads[j].writings == s.threads[j].writings)
  }

  /** `try_lock_shared` answers true if and only if no thread holds the write lock, and then there is one more read lock. */
  lemma TryLockAnswers(s: State, i: nat)
    requires Inv(s) && DoTryLockShared(s, i).Some?
    ensures var r := DoTryLockShared(s, i).value;
      && (r.1 <==> forall j :: 0 <= j < |s.threads| ==> s.threads[j].writings == 0)
      && Holds(s, r.0, i, s.threads[i].readings + (if r.1 then 1 else 0), s.threads[i].writings)
      && (!r.1 ==> r.0 == s) && Do(s, TryLockShared(i)) == Some(r.0)
  {
    if s.owner.Some? { assert s.threads[s.owner.value].writings > 0; }
  }

  /** `lock_shared` returns with one more read lock if and only if no thread holds the write lock, and waits otherwise. */
  lemma LockSharedGives(s: State, i: nat)
    requires Inv(s) && DoLockShared(s, i).Some?
    ensures var s' := DoLockShared(s, i).value;
      var free := forall j :: 0 <= j < |s.threads| ==> s.threads[j].writings == 0;
      && Holds(s, s', i, s.threads[i].readings + (if free then 1 else 0), s.threads[i].writings)
      && s'.threads[i].at == if free then Outside else WaitRead(false)
  {
    if s.owner.Some? { assert s.threads[s.owner.value].writings > 0; }
  }

  /** `lock` returns with one more write lock if nobody holds the lock or the thread itself has the write lock, and waits otherwise. */
  lemma LockGives(s: State, i: nat)
    requires Inv(s) && DoLock(s, i).Some?
    ensures var s' := DoLock(s, i).value;
      var free := forall j :: 0 <= j < |s.threads| ==> s.threads[j].writings == 0 && s.threads[j].readings == 0;
      var given := free || s.threads[i].writings > 0;
      && Holds(s, s', i, s.threads[i].readings, s.threads[i].writings + (if given then 1 else 0))
      && s'.threads[i].at == if given then Outside else WaitWrite(false)
  {
    ReadsPositive(s.threads);
    if s.owner.Some? { assert s.threads[s.owner.value].writings > 0; }
  }

  lemma {:induction false} ReadsPositive(threads: seq<Thread>)
    ensures Reads(threads) > 0 <==> exists j :: 0 <= j < |threads| && threads[j].readings > 0
  {
    if threads != [] {
      ReadsPositive(threads[1..]);
      if j :| 0 <= j < |threads| && threads[j].readings > 0 && j > 0 { assert threads[1..][j - 1].readings > 0; }
      if j :| 0 <= j < |threads| - 1 && threads[1..][j].readings > 0 { assert threads[j + 1].readings > 0; }
    }
  }

  /** Each unlock undoes one lock of its thread. */
  lemma UnlockTakes(s: State, i: nat, wake: Option<nat>)
    requires Inv(s)
    ensures DoUnlockShared(s, i, wake).Some? ==>
      Holds(s, DoUnlockShared(s, i, wake).value, i, s.threads[i].readings - 1, s.threads[i].writings)
    ensures DoUnlock(s, i, wake).Some? ==>
      Holds(s, DoUnlock(s, i, wake).value, i, s.threads[i].readings, s.threads[i].writings - 1)
  {
  }

  /** A thread that holds a lock can undo it: some wake-up fits. */
  lemma UnlockCan(s: State, i: nat)
    requires Inv(s) && i < |s.threads| && s.threads[i].at.Outside?
    ensures s.threads[i].readings > 0 ==> exists wake :: DoUnlockShared(s, i, wake).Some?
    ensures s.threads[i].writings > 0 ==> exists wake :: DoUnlock(s, i, wake).Some?
  {
    if s.threads[i].readings > 0 {
      var threads := s.threads[i := s.threads[i].(readings := s.threads[i].readings - 1)];
      var wake := SomeWake(threads);
      assert s.shared == 1 ==> DoUnlockShared(s, i, wake).Some?;
      assert s.shared != 1 ==> DoUnlockShared(s, i, None).Some?;
    }
    if s.threads[i].writings > 0 {
      var threads := s.threads[i := s.threads[i].(writings := s.threads[i].writings - 1)];
      var wake := SomeWake(ReadersWoken(threads));
      assert s.count > 1 ==> DoUnlock(s, i, None).Some?;
      assert s.count <= 1 ==> DoUnlock(s, i, wake).Some?;
    }
  }

  lemma SomeWake(threads: seq<Thread>) returns (wake: Option<nat>)
    ensures NotifyOne(threads, wake)
  {
    if j: nat :| j < |threads| && threads[j].at == WaitWrite(false) { wake := Some(j); } else { wake := None; }
  }
}
