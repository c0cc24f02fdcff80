/**
  The timer stage: deps/common/seda/timer_stage.cpp.  Each step is one critical section; the timer
  thread and any number of registering and cancelling threads interleave freely.
 */
module TimerStage {
  import opened Options

  datatype Time = Time(sec: int, usec: int)
  datatype Token = Token(time: Time, nonce: nat)
  type Callback = nat

  predicate Earlier(a: Time, b: Time) {
    a.sec < b.sec || (a.sec == b.sec && a.usec < b.usec)
  }

  /** `TimerToken::operator<`. */
  predicate Less(a: Token, b: Token) {
    if Earlier(a.time, b.time) then true
    else if a.time == b.time then a.nonce < b.nonce
    else false
  }

  /** The order of tokens is strict and total, and refines the order of times. */
  lemma LessIsStrictTotalOrder(a: Token, b: Token, c: Token)
    ensures !Less(a, a)
    ensures Less(a, b) && Less(b, c) ==> Less(a, c)
    ensures a != b ==> (Less(a, b) <==> !Less(b, a))
    ensures Less(a, b) ==> !Earlier(b.time, a.time)
  {
  }

  datatype Entry = Entry(token: Token, callback: Callback)

  /** A callback that was triggered, and the clock reading that made it due. */
  datatype Fired = Fired(token: Token, callback: Callback, at: Time)

  datatype TimerThread = Running | Sleeping(deadline: Option<Time>, signalled: bool) | Stopped

  /**
    `queue` is `timer_queue_`; `made` holds the tokens whose registration has not yet taken the
    mutex, `triggers` counts the registrations that still have to call `trigger_timer_check`.
    `log`, `cancelled` and `registered` are history.
   */
  datatype State = State(queue: seq<Entry>, numEvents: int, shutdown: bool, thread: TimerThread,
                         nextNonce: nat, made: set<Token>, triggers: nat,
                         log: seq<Fired>, cancelled: set<Token>, registered: map<Token, Callback>)

  datatype Step =
    | MakeToken(time: Time)
    | Register(token: Token, callback: Callback)
    | Trigger
    | Cancel(token: Token)
    | Check(now: Time)
    | Wake
    | Shutdown

  predicate Sorted(q: seq<Entry>) {
    forall i, j :: 0 <= i < j < |q| ==> Less(q[i].token, q[j].token)
  }

  predicate Has(q: seq<Entry>, t: Token) {
    exists i :: 0 <= i < |q| && q[i].token == t
  }

  /** How many entries come before `t`. */
  function Place(q: seq<Entry>, t: Token): (k: nat)
    ensures k <= |q|
    ensures forall i :: 0 <= i < k ==> Less(q[i].token, t)
    ensures k < |q| ==> !Less(q[k].token, t)
  {
    if q == [] || !Less(q[0].token, t) then 0 else
      var k := Place(q[1..], t);
      assert forall i :: 0 < i < k + 1 ==> q[i] == q[1..][i - 1];
      1 + k
  }

  /** Insertion into the ordered map, which refuses a token it has. */
  function Insert(q: seq<Entry>, e: Entry): seq<Entry> {
    var k := Place(q, e.token);
    if k < |q| && q[k].token == e.token then q else q[..k] + [e] + q[k..]
  }

  function Erase(q: seq<Entry>, t: Token): seq<Entry> {
    var k := Place(q, t);
    if k < |q| && q[k].token == t then q[..k] + q[k + 1..] else q
  }

  /** How many entries at the front are due. */
  function DueCount(q: seq<Entry>, now: Time): (k: nat)
    ensures k <= |q|
    ensures forall i :: 0 <= i < k ==> !Earlier(now, q[i].token.time)
    ensures k < |q| ==> Earlier(now, q[k].token.time)
  {
    if q == [] || Earlier(now, q[0].token.time) then 0 else
      var k := DueCount(q[1..], now);
      assert forall i :: 0 < i < k + 1 ==> q[i] == q[1..][i - 1];
      1 + k
  }

  function Firing(q: seq<Entry>, now: Time): seq<Fired> {
    seq(|q|, i requires 0 <= i < |q| => Fired(q[i].token, q[i].callback, now))
  }

  function Signalled(t: TimerThread): TimerThread {
    if t.Sleeping? then t.(signalled := true) else t
  }

  /** The first loop of `check_timer`. */
  method CollectDue(q: seq<Entry>, now: Time) returns (done: seq<Fired>, rest: seq<Entry>)
    ensures done == Firing(q[..DueCount(q, now)], now) && rest == q[DueCount(q, now)..]
    ensures Sorted(q) ==> forall i :: 0 <= i < |q| ==> (Earlier(now, q[i].token.time) <==> q[i] in rest)
  {
    done := [];
    var last := 0;
    while last < |q|
      invariant last <= |q| && done == Firing(q[..last], now)
      invariant forall i :: 0 <= i < last ==> !Earlier(now, q[i].token.time)
    {
      if Earlier(now, q[last].token.time) {
        break;
      }
      done := done + [Fired(q[last].token, q[last].callback, now)];
      last := last + 1;
    }
    assert last == DueCount(q, now);
    rest := q[last..];
    if Sorted(q) { DueSplit(q, now); }
  }

  lemma DueIndex(q: seq<Entry>, now: Time, i: nat)
    requires Sorted(q) && i < |q|
    ensures Earlier(now, q[i].token.time) <==> i >= DueCount(q, now)
  {
    var k := DueCount(q, now);
    if i > k { LessIsStrictTotalOrder(q[k].token, q[i].token, q[i].token); }
  }

  lemma DueSplit(q: seq<Entry>, now: Time)
    requires Sorted(q)
    ensures forall i :: 0 <= i < |q| ==> (Earlier(now, q[i].token.time) <==> q[i] in q[DueCount(q, now)..])
  {
    var k := DueCount(q, now);
    forall i | 0 <= i < |q| ensures Earlier(now, q[i].token.time) <==> q[i] in q[k..] {
      DueIndex(q, now, i);
      if i >= k { assert q[k..][i - k] == q[i]; }
      if q[i] in q[k..] {
        var j :| 0 <= j < |q| - k && q[k..][j] == q[i];
        DueIndex(q, now, k + j);
      }
    }
  }

  /** `None` when the step cannot be taken. */
  function Do(s: State, step: Step): Option<State> {
    match step
    case MakeToken(time) =>
      Some(s.(nextNonce := s.nextNonce + 1, made := s.made + {Token(time, s.nextNonce)}))
    case Register(token, callback) =>
      if token !in s.made then None
      else
        var queue := Insert(s.queue, Entry(token, callback));
        Some(s.(queue := queue, numEvents := s.numEvents + 1, made := s.made - {token},
                registered := s.registered[token := callback],
                triggers := if queue != [] && queue[0].token == token then s.triggers + 1 else s.triggers))
    case Trigger =>
      if s.triggers == 0 then None
      else Some(s.(triggers := s.triggers - 1, thread := Signalled(s.thread)))
    case Cancel(token) =>
      if Has(s.queue, token) then
        Some(s.(queue := Erase(s.queue, token), numEvents := s.numEvents - 1, cancelled := s.cancelled + {token}))
      else Some(s)
    case Check(now) =>
      if !s.thread.Running? then None
      else
        var k := DueCount(s.queue, now);
        var rest := s.queue[k..];
        Some(s.(queue := rest, numEvents := s.numEvents - k, log := s.log + Firing(s.queue[..k], now),
                thread := if s.shutdown then Stopped
                          else Sleeping(if rest == [] then None else Some(rest[0].token.time), false)))
    case Wake =>
      if !s.thread.Sleeping? then None else Some(s.(thread := Running))
    case Shutdown =>
      Some(s.(shutdown := true, thread := Signalled(s.thread)))
  }

  function Run(s: State, steps: seq<Step>): Option<State> {
    if steps == [] then Some(s)
    else
      var s' :- Run(s, steps[..|steps| - 1]);
      Do(s', steps[|steps| - 1])
  }

  // --- The invariant ---

  predicate InLog(log: seq<Fired>, t: Token) {
    exists i :: 0 <= i < |log| && log[i].token == t
  }

  /** Every registered token is in exactly one of three places: waiting, fired, cancelled. */
  ghost predicate Placed(s: State) {
    && (forall t :: t in s.registered <==> Has(s.queue, t) || InLog(s.log, t) || t in s.cancelled)
    && (forall t :: !(Has(s.queue, t) && InLog(s.log, t)) && !(Has(s.queue, t) && t in s.cancelled)
                    && !(InLog(s.log, t) && t in s.cancelled))
    && (forall i, j :: 0 <= i < j < |s.log| ==> s.log[i].token != s.log[j].token)
  }

  /** Tokens still to be registered are new. */
  ghost predicate New(s: State) {
    && (forall t :: t in s.made ==> t.nonce < s.nextNonce && t !in s.registered)
    && (forall t :: t in s.registered ==> t.nonce < s.nextNonce)
    && (forall t, u :: t in s.made && u in s.made && t.nonce == u.nonce ==> t == u)
  }

  /** The callbacks are the registered ones, and none fires early. */
  ghost predicate Faithful(s: State) {
    && (forall i :: 0 <= i < |s.queue| ==> s.queue[i].token in s.registered && s.queue[i].callback == s.registered[s.queue[i].token])
    && (forall i :: 0 <= i < |s.log| ==> s.log[i].token in s.registered && s.log[i].callback == s.registered[s.log[i].token]
                                         && !Earlier(s.log[i].at, s.log[i].token.time))
  }

  /** The timer thread does not sleep past the first token, nor through a shutdown, unless a signal is on its way. */
  ghost predicate Attentive(s: State) {
    s.thread.Sleeping? && !s.thread.signalled ==>
      && !s.shutdown
      && (s.triggers == 0 && s.queue != [] ==>
            s.thread.deadline.Some? && !Earlier(s.queue[0].token.time, s.thread.deadline.value))
  }

  ghost predicate Inv(s: State) {
    && Sorted(s.queue) && s.numEvents == |s.queue|
    && Placed(s) && New(s) && Faithful(s) && Attentive(s)
  }

  predicate Init(s: State) {
    s == State([], 0, false, Running, 0, {}, 0, [], {}, map[])
  }

  // --- Every step keeps it ---

  lemma PlaceOf(q: seq<Entry>, t: Token)
    requires Sorted(q)
    ensures var k := Place(q, t);
      && (Has(q, t) <==> k < |q| && q[k].token == t)
      && (forall i :: k < i < |q| ==> Less(t, q[i].token))
      && (k < |q| && q[k].token != t ==> Less(t, q[k].token))
  {
    var k := Place(q, t);
    if k < |q| && q[k].token != t { LessIsStrictTotalOrder(t, q[k].token, t); }
    forall i | k < i < |q| ensures Less(t, q[i].token) {
      LessIsStrictTotalOrder(t, q[k].token, q[i].token);
    }
    if i :| 0 <= i < |q| && q[i].token == t { LessIsStrictTotalOrder(t, t, t); }
  }

  lemma Inserted(q: seq<Entry>, e: Entry)
    requires Sorted(q) && !Has(q, e.token)
    ensures var r := Insert(q, e);
      && Sorted(r) && |r| == |q| + 1 && (forall t :: Has(r, t) <==> Has(q, t) || t == e.token)
      && (r[0].token != e.token ==> q != [] && r[0] == q[0])
      && (forall i :: 0 <= i < |r| ==> r[i] == e || r[i] in q)
  {
    PlaceOf(q, e.token);
    var k, r := Place(q, e.token), Insert(q, e);
    forall i, j | 0 <= i < j < |r| ensures Less(r[i].token, r[j].token) {
      assert r[i] == (if i < k then q[i] else if i == k then e else q[i - 1]);
      assert r[j] == (if j < k then q[j] else if j == k then e else q[j - 1]);
      if i < k < j { LessIsStrictTotalOrder(r[i].token, e.token, r[j].token); }
    }
    forall t ensures Has(r, t) <==> Has(q, t) || t == e.token {
      if i :| 0 <= i < |q| && q[i].token == t { assert r[if i < k then i else i + 1].token == t; }
      if t == e.token { assert r[k].token == t; }
      if i :| 0 <= i < |r| && r[i].token == t { assert i != k ==> q[if i < k then i else i - 1].token == t; }
    }
  }

  lemma Erased(q: seq<Entry>, t: Token)
    requires Sorted(q) && Has(q, t)
    ensures var r := Erase(q, t);
      && Sorted(r) && |r| == |q| - 1 && (forall u :: Has(r, u) <==> Has(q, u) && u != t)
      && (r != [] ==> r[0] == q[0] || Less(q[0].token, r[0].token))
      && (forall i :: 0 <= i < |r| ==> r[i] in q)
  {
    PlaceOf(q, t);
    var k, r := Place(q, t), Erase(q, t);
    assert forall i :: 0 <= i < |r| ==> r[i] == q[if i < k then i else i + 1];
    forall u ensures Has(r, u) <==> Has(q, u) && u != t {
      if i :| 0 <= i < |r| && r[i].token == u {
        var j := if i < k then i else i + 1;
        assert q[j].token == u;
        if j < k { LessIsStrictTotalOrder(q[j].token, t, t); } else { LessIsStrictTotalOrder(t, q[j].token, t); }
      }
      if i :| 0 <= i < |q| && q[i].token == u && u != t { assert r[if i < k then i else i - 1].token == u; }
    }
  }

  lemma KeepsRegister(s: State, token: Token, callback: Callback)
    requires Inv(s) && Do(s, Register(token, callback)).Some?
    ensures Inv(Do(s, Register(token, callback)).value)
  {
    assert token !in s.registered && !Has(s.queue, token);
    Inserted(s.queue, Entry(token, callback));
    var s' := Do(s, Register(token, callback)).value;
    assert Placed(s') && New(s') && Attentive(s');
    assert forall i :: 0 <= i < |s'.log| ==> s'.log[i].token != token by {
      assert forall i :: 0 <= i < |s.log| ==> InLog(s.log, s.log[i].token);
    }
    assert Faithful(s');
  }

  lemma CancelPlaces(s: State, token: Token)
    requires Sorted(s.queue) && Placed(s) && Has(s.queue, token)
    ensures Placed(s.(queue := Erase(s.queue, token), numEvents := s.numEvents - 1, cancelled := s.cancelled + {token}))
  {
    Erased(s.queue, token);
    assert token in s.registered;
  }

  lemma KeepsCancel(s: State, token: Token)
    requires Inv(s)
    ensures Inv(Do(s, Cancel(token)).value)
  {
    if Has(s.queue, token) {
      CancelPlaces(s, token);
      Erased(s.queue, token);
      var s' := Do(s, Cancel(token)).value;
      forall i | 0 <= i < |s'.queue| ensures s'.queue[i].token in s.registered && s'.queue[i].callback == s.registered[s'.queue[i].token] {
        assert s'.queue[i] in s.queue;
      }
      if s'.queue != [] { LessIsStrictTotalOrder(s.queue[0].token, s'.queue[0].token, token); }
    }
  }

  lemma SplitHas(q: seq<Entry>, k: nat, now: Time, t: Token)
    requires Sorted(q) && k <= |q|
    ensures Has(q, t) <==> Has(q[k..], t) || InLog(Firing(q[..k], now), t)
    ensures !(Has(q[k..], t) && InLog(Firing(q[..k], now), t))
  {
    var f := Firing(q[..k], now);
    if i :| 0 <= i < |q| && q[i].token == t {
      if i < k { assert f[i].token == t; } else { assert q[k..][i - k].token == t; }
    }
    if i :| 0 <= i < |q| - k && q[k..][i].token == t {
      assert q[k + i].token == t;
      forall j | 0 <= j < k ensures f[j].token != t { LessIsStrictTotalOrder(q[j].token, q[k + i].token, t); }
    }
    if i :| 0 <= i < |f| && f[i].token == t { assert q[i].token == t; }
  }

  lemma LogConcat(a: seq<Fired>, b: seq<Fired>, t: Token)
    ensures InLog(a + b, t) <==> InLog(a, t) || InLog(b, t)
  {
    if i :| 0 <= i < |a| && a[i].token == t { assert (a + b)[i].token == t; }
    if i :| 0 <= i < |b| && b[i].token == t { assert (a + b)[|a| + i].token == t; }
  }

  lemma CheckPlaces(s: State, now: Time)
    requires Inv(s) && s.thread.Running?
    ensures Placed(Do(s, Check(now)).value)
  {
    var s', k := Do(s, Check(now)).value, DueCount(s.queue, now);
    var f := Firing(s.queue[..k], now);
    forall t ensures Has(s.queue, t) <==> Has(s'.queue, t) || InLog(f, t)
             ensures !(Has(s'.queue, t) && InLog(f, t))
             ensures InLog(s'.log, t) <==> InLog(s.log, t) || InLog(f, t)
    {
      SplitHas(s.queue, k, now, t);
      LogConcat(s.log, f, t);
    }
    forall i, j | 0 <= i < j < |s'.log| ensures s'.log[i].token != s'.log[j].token {
      if i < |s.log| <= j {
        assert InLog(s.log, s.log[i].token) && InLog(f, f[j - |s.log|].token);
      } else if |s.log| <= i {
        LessIsStrictTotalOrder(s.queue[i - |s.log|].token, s.queue[j - |s.log|].token, s.queue[0].token);
      }
    }
  }

  lemma CheckFaithful(s: State, now: Time)
    requires Faithful(s) && s.thread.Running?
    ensures Faithful(Do(s, Check(now)).value)
  {
    var s', k := Do(s, Check(now)).value, DueCount(s.queue, now);
    assert forall i :: 0 <= i < |s'.queue| ==> s'.queue[i] == s.queue[k + i];
    forall i | |s.log| <= i < |s'.log|
      ensures s'.log[i] == Fired(s.queue[i - |s.log|].token, s.queue[i - |s.log|].callback, now) && i - |s.log| < k
    {
    }
  }

  lemma KeepsCheck(s: State, now: Time)
    requires Inv(s) && s.thread.Running?
    ensures Inv(Do(s, Check(now)).value)
  {
    CheckPlaces(s, now);
    CheckFaithful(s, now);
  }

  lemma KeepsStep(s: State, step: Step)
    requires Inv(s) && Do(s, step).Some?
    ensures Inv(Do(s, step).value)
  {
    match step
    case Register(token, callback) => KeepsRegister(s, token, callback);
    case Cancel(token) => KeepsCancel(s, token);
    case Check(now) => KeepsCheck(s, now);
    case MakeToken(time) => assert Do(s, step).value.registered == s.registered;
    case _ =>
  }

  /** Every state of every run keeps the invariant. */
  lemma {:induction false} RunsKeep(s: State, steps: seq<Step>)
    requires Init(s) && Run(s, steps).Some?
    ensures Inv(Run(s, steps).value)
  {
    if steps != [] {
      RunsKeep(s, steps[..|steps| - 1]);
      KeepsStep(Run(s, steps[..|steps| - 1]).value, steps[|steps| - 1]);
    }
  }

  // --- What follows for every run ---

  /** A registered callback waits, has fired once, or was cancelled, and only one of these; none fired early. */
  lemma EachAtMostOnce(s0: State, steps: seq<Step>, s: State, t: Token)
    requires Init(s0) && Run(s0, steps) == Some(s)
    ensures t in s.registered <==> Has(s.queue, t) || InLog(s.log, t) || t in s.cancelled
    ensures InLog(s.log, t) ==> t !in s.cancelled && !Has(s.queue, t)
    ensures t in s.cancelled ==> !Has(s.queue, t)
    ensures forall i :: 0 <= i < |s.log| && s.log[i].token == t ==>
      && !Earlier(s.log[i].at, t.time)
      && t in s.registered && s.log[i].callback == s.registered[t]
      && forall j :: 0 <= j < |s.log| && s.log[j].token == t ==> j == i
    ensures s.numEvents == |s.queue|
  {
    RunsKeep(s0, steps);
  }

  /** A sleeping timer thread will be woken in time. */
  lemma NeverOversleeps(s0: State, steps: seq<Step>, s: State)
    requires Init(s0) && Run(s0, steps) == Some(s) && s.thread.Sleeping? && !s.thread.signalled && s.triggers == 0
    ensures !s.shutdown
    ensures forall i :: 0 <= i < |s.queue| ==>
      s.thread.deadline.Some? && !Earlier(s.queue[i].token.time, s.thread.deadline.value)
  {
    RunsKeep(s0, steps);
    forall i | 0 < i < |s.queue| ensures !Earlier(s.queue[i].token.time, s.queue[0].token.time) {
      LessIsStrictTotalOrder(s.queue[0].token, s.queue[i].token, s.queue[0].token);
    }
  }

  lemma DueOrNot(q: seq<Entry>, now: Time, t: Token)
    requires Sorted(q) && Has(q, t)
    ensures var k := DueCount(q, now);
      (Has(q[k..], t) <==> Earlier(now, t.time)) && (InLog(Firing(q[..k], now), t) <==> !Earlier(now, t.time))
  {
    var k := DueCount(q, now);
    SplitHas(q, k, now, t);
    var i :| 0 <= i < |q| && q[i].token == t;
    DueIndex(q, now, i);
    if i < k { assert Firing(q[..k], now)[i].token == t; } else { assert q[k..][i - k].token == t; }
  }

  /** A check fires exactly what is due, in token order. */
  lemma CheckFiresWhatIsDue(s: State, now: Time)
    requires Inv(s) && s.thread.Running?
    ensures var s' := Do(s, Check(now)).value;
      && s.log <= s'.log
      && (forall t :: Has(s.queue, t) ==> (Has(s'.queue, t) <==> Earlier(now, t.time)) && (InLog(s'.log, t) <==> !Earlier(now, t.time)))
      && (forall i, j :: |s.log| <= i < j < |s'.log| ==> Less(s'.log[i].token, s'.log[j].token))
  {
    var q, k := s.queue, DueCount(s.queue, now);
    forall t | Has(q, t)
      ensures (Has(q[k..], t) <==> Earlier(now, t.time)) && (InLog(s.log + Firing(q[..k], now), t) <==> !Earlier(now, t.time))
    {
      DueOrNot(q, now, t);
      LogConcat(s.log, Firing(q[..k], now), t);
    }
  }

  /** `b` has not fired, or `a` was cancelled, or `a` fired before it. */
  ghost predicate InOrder(s: State, a: Token, b: Token) {
    && (Has(s.queue, a) ==> !InLog(s.log, b))
    && (a in s.cancelled || forall j :: 0 <= j < |s.log| && s.log[j].token == b ==> exists i :: 0 <= i < j && s.log[i].token == a)
    && (Has(s.queue, a) || InLog(s.log, a) || a in s.cancelled)
  }

  lemma IndexOrder(q: seq<Entry>, i: nat, k: nat)
    requires Sorted(q) && i < |q| && k < |q|
    ensures Less(q[i].token, q[k].token) <==> i < k
  {
    LessIsStrictTotalOrder(q[i].token, q[k].token, q[i].token);
  }

  lemma CheckKeepsOrder(s: State, now: Time, a: Token, b: Token)
    requires Inv(s) && Less(a, b) && InOrder(s, a, b) && s.thread.Running?
    ensures InOrder(Do(s, Check(now)).value, a, b)
  {
    var s' := Do(s, Check(now)).value;
    CheckPlaces(s, now);
    CheckFiresWhatIsDue(s, now);
    LogConcat(s.log, Firing(s.queue[..DueCount(s.queue, now)], now), a);
    LogConcat(s.log, Firing(s.queue[..DueCount(s.queue, now)], now), b);
    LessIsStrictTotalOrder(a, b, b);
    forall j | 0 <= j < |s'.log| && s'.log[j].token == b && a !in s.cancelled
      ensures (exists i :: 0 <= i < j && s'.log[i].token == a) && !Has(s'.queue, a)
    {
      FiredBefore(s, now, a, b, j);
    }
  }

  lemma BatchOrder(q: seq<Entry>, k: nat, now: Time, a: Token, b: Token, j: nat)
    requires Sorted(q) && j < k <= |q| && q[j].token == b && Has(q, a) && Less(a, b)
    ensures exists i :: 0 <= i < j && Firing(q[..k], now)[i].token == a
  {
    var m: nat :| m < |q| && q[m].token == a;
    IndexOrder(q, m, j);
    assert Firing(q[..k], now)[m].token == a;
  }

  /** In the log `log + f`, position `j` is preceded by `a`. */
  lemma Precedes(log: seq<Fired>, f: seq<Fired>, a: Token, j: nat)
    requires (j >= |log| && InLog(log, a)) || (j < |log| && exists i :: 0 <= i < j && log[i].token == a)
             || (j >= |log| && j - |log| < |f| && exists i :: 0 <= i < j - |log| && f[i].token == a)
    ensures exists i :: 0 <= i < j && i < |log + f| && (log + f)[i].token == a
  {
    if i :| 0 <= i < |log| && i < j && log[i].token == a {
      assert (log + f)[i].token == a;
    } else {
      var i :| 0 <= i < j - |log| && f[i].token == a;
      assert (log + f)[|log| + i].token == a;
    }
  }

  lemma FiredBefore(s: State, now: Time, a: Token, b: Token, j: nat)
    requires Inv(s) && Less(a, b) && InOrder(s, a, b) && s.thread.Running? && a !in s.cancelled
    requires var log := Do(s, Check(now)).value.log; j < |log| && log[j].token == b
    ensures var s' := Do(s, Check(now)).value; (exists i :: 0 <= i < j && s'.log[i].token == a) && !Has(s'.queue, a)
  {
    var s', k := Do(s, Check(now)).value, DueCount(s.queue, now);
    CheckPlaces(s, now);
    if j >= |s.log| && Has(s.queue, a) { BatchOrder(s.queue, k, now, a, b, j - |s.log|); }
    Precedes(s.log, Firing(s.queue[..k], now), a, j);
    assert InLog(s'.log, a);
  }

  lemma StepKeepsOrder(s: State, step: Step, a: Token, b: Token)
    requires Inv(s) && Less(a, b) && InOrder(s, a, b) && Do(s, step).Some?
    ensures InOrder(Do(s, step).value, a, b)
  {
    match step
    case Check(now) => CheckKeepsOrder(s, now, a, b);
    case Register(token, callback) =>
      assert !Has(s.queue, token);
      Inserted(s.queue, Entry(token, callback));
    case Cancel(token) =>
      if Has(s.queue, token) { Erased(s.queue, token); }
    case _ =>
  }

  lemma {:induction false} RunKeepsOrder(s: State, steps: seq<Step>, a: Token, b: Token)
    requires Inv(s) && Less(a, b) && InOrder(s, a, b) && Run(s, steps).Some?
    ensures Inv(Run(s, steps).value) && InOrder(Run(s, steps).value, a, b)
  {
    if steps != [] {
      var n := |steps| - 1;
      RunKeepsOrder(s, steps[..n], a, b);
      StepKeepsOrder(Run(s, steps[..n]).value, steps[n], a, b);
      KeepsStep(Run(s, steps[..n]).value, steps[n]);
    }
  }

  /** Of two callbacks that wait together, the one with the smaller token fires first unless it is cancelled. */
  lemma FiresInOrder(s0: State, before: seq<Step>, s: State, after: seq<Step>, s': State, a: Token, b: Token)
    requires Init(s0) && Run(s0, before) == Some(s) && Run(s, after) == Some(s')
    requires Has(s.queue, a) && Has(s.queue, b) && Less(a, b)
    ensures a in s'.cancelled || forall j :: 0 <= j < |s'.log| && s'.log[j].token == b ==> exists i :: 0 <= i < j && s'.log[i].token == a
  {
    RunsKeep(s0, before);
    assert forall j :: 0 <= j < |s.log| ==> InLog(s.log, s.log[j].token);
    RunKeepsOrder(s, after, a, b);
  }

  // --- What a registration and a cancellation achieve ---

  /** The queue `r` is `q` with the entry `e` put in; everything else keeps its order. */
  ghost predicate PutIn(q: seq<Entry>, e: Entry, r: seq<Entry>) {
    exists k :: 0 <= k <= |q| && r == q[..k] + [e] + q[k..]
  }

  lemma InsertPuts(q: seq<Entry>, e: Entry)
    requires Sorted(q) && !Has(q, e.token)
    ensures PutIn(q, e, Insert(q, e))
  {
    PlaceOf(q, e.token);
    var k := Place(q, e.token);
    assert Insert(q, e) == q[..k] + [e] + q[k..];
  }

  lemma EraseTakes(q: seq<Entry>, t: Token) returns (e: Entry)
    requires Sorted(q) && Has(q, t)
    ensures e in q && e.token == t && PutIn(Erase(q, t), e, q)
  {
    PlaceOf(q, t);
    var k, r := Place(q, t), Erase(q, t);
    e := q[k];
    assert r[..k] == q[..k] && r[k..] == q[k + 1..];
    assert q == r[..k] + [e] + r[k..];
  }

  /** A token that was made can be registered: it waits with its callback, and every other entry is kept. */
  lemma RegisteredWaits(s: State, t: Token, callback: Callback)
    requires Inv(s) && t in s.made
    ensures var r := Do(s, Register(t, callback));
      && r.Some? && Has(r.value.queue, t) && PutIn(s.queue, Entry(t, callback), r.value.queue)
      && t !in r.value.made && t in r.value.registered && r.value.registered[t] == callback
      && r.value.log == s.log && r.value.cancelled == s.cancelled && r.value.thread == s.thread && r.value.shutdown == s.shutdown
  {
    assert t !in s.registered && !Has(s.queue, t);
    Inserted(s.queue, Entry(t, callback));
    InsertPuts(s.queue, Entry(t, callback));
  }

  /** A token is made once: for its time, with a number that no other has. */
  lemma MadeIsNew(s: State, time: Time) returns (t: Token)
    requires Inv(s)
    ensures var s' := Do(s, MakeToken(time)).value;
      && t.time == time && t !in s.made && t !in s.registered && !Has(s.queue, t)
      && (forall u :: u in s.made || u in s.registered ==> u.nonce != t.nonce)
      && s' == s.(nextNonce := s'.nextNonce, made := s.made + {t})
  {
    t := Token(time, s.nextNonce);
    assert forall i :: 0 <= i < |s.queue| ==> s.queue[i].token in s.registered;
  }

  /** A waiting entry is taken out and every other one kept in order; a token that does not wait changes nothing. */
  lemma CancelledGoes(s: State, t: Token)
    requires Inv(s)
    ensures var s' := Do(s, Cancel(t)).value;
      if Has(s.queue, t) then
        && !Has(s'.queue, t) && t in s'.cancelled && t in s.registered && PutIn(s'.queue, Entry(t, s.registered[t]), s.queue)
        && s'.log == s.log && s'.made == s.made && s'.registered == s.registered && s'.thread == s.thread && s'.shutdown == s.shutdown
      else s' == s
  {
    if Has(s.queue, t) {
      Erased(s.queue, t);
      var e := EraseTakes(s.queue, t);
      assert e == Entry(t, s.registered[t]);
    }
  }

  lemma CancelledGrows(s: State, step: Step, t: Token)
    requires t in s.cancelled && Do(s, step).Some?
    ensures t in Do(s, step).value.cancelled
  {
  }

  lemma {:induction false} CancelledStays(s: State, steps: seq<Step>, t: Token)
    requires Inv(s) && t in s.cancelled && Run(s, steps).Some?
    ensures Inv(Run(s, steps).value) && t in Run(s, steps).value.cancelled
  {
    if steps != [] {
      var n := |steps| - 1;
      CancelledStays(s, steps[..n], t);
      CancelledGrows(Run(s, steps[..n]).value, steps[n], t);
      KeepsStep(Run(s, steps[..n]).value, steps[n]);
    }
  }

  /** Cancelled while it waits, a callback never fires, whatever happens later. */
  lemma CancelledNeverFires(s0: State, before: seq<Step>, s: State, t: Token, after: seq<Step>, s': State)
    requires Init(s0) && Run(s0, before) == Some(s) && Has(s.queue, t)
    requires Run(Do(s, Cancel(t)).value, after) == Some(s')
    ensures !InLog(s'.log, t) && !Has(s'.queue, t)
  {
    RunsKeep(s0, before);
    CancelledGoes(s, t);
    KeepsStep(s, Cancel(t));
    CancelledStays(Do(s, Cancel(t)).value, after, t);
  }

  /** Not cancelled, a waiting callback fires at the first check that its time has come to. */
  lemma DueFires(s: State, now: Time, t: Token)
    requires Inv(s) && s.thread.Running? && Has(s.queue, t) && !Earlier(now, t.time)
    ensures var s' := Do(s, Check(now)).value;
      InLog(s'.log, t) && !Has(s'.queue, t) && s'.cancelled == s.cancelled && s'.registered == s.registered && s'.made == s.made
  {
    CheckFiresWhatIsDue(s, now);
  }

  /** After a check the timer thread sleeps exactly until the first token, and after a shutdown it has stopped. */
  lemma CheckSleeps(s: State, now: Time)
    requires Inv(s) && s.thread.Running?
    ensures var s' := Do(s, Check(now)).value;
      if s.shutdown then s'.thread.Stopped?
      else && s'.thread.Sleeping? && !s'.thread.signalled
           && (s'.queue == [] <==> s'.thread.deadline == None)
           && (forall i :: 0 <= i < |s'.queue| ==>
                s'.thread.deadline.Some? && !Earlier(s'.queue[i].token.time, s'.thread.deadline.value))
           && (s'.thread.deadline.Some? ==> exists i :: 0 <= i < |s'.queue| && s'.queue[i].token.time == s'.thread.deadline.value)
  {
    var s' := Do(s, Check(now)).value;
    KeepsStep(s, Check(now));
    if s'.queue != [] { assert s'.queue[0].token.time == s'.queue[0].token.time; }
    forall i | 0 < i < |s'.queue| ensures !Earlier(s'.queue[i].token.time, s'.queue[0].token.time) {
      LessIsStrictTotalOrder(s'.queue[0].token, s'.queue[i].token, s'.queue[0].token);
    }
  }

  /** A trigger is used up, and a sleeping thread has been signalled and can wake up. */
  lemma TriggerSignals(s: State)
    requires s.triggers > 0
    ensures var r := Do(s, Trigger);
      && r.Some? && r.value.triggers == s.triggers - 1 && r.value.queue == s.queue && r.value.made == s.made
      && (s.thread.Sleeping? ==> r.value.thread.Sleeping? && r.value.thread.signalled
                                 && Do(r.value, Wake).Some? && Do(r.value, Wake).value.thread.Running?)
  {
  }

  /** A shutdown stops the thread after one more check, from sleep too. */
  lemma ShutdownStops(s: State, now: Time)
    requires Inv(s) && !s.thread.Stopped?
    ensures var s1 := Do(s, Shutdown).value;
      && (s1.thread.Sleeping? ==> s1.thread.signalled && Do(s1, Wake).Some?)
      && (s1.thread.Running? ==> Do(s1, Check(now)).value.thread.Stopped?)
      && (s1.thread.Sleeping? ==> Do(Do(s1, Wake).value, Check(now)).value.thread.Stopped?)
  {
  }
}
