/**
  The nested-loop join operator: src/observer/sql/operator/join_physical_operator.cpp.
 */
module NestedLoopJoin {
  import opened Options
  import opened Expressions
  import opened LogicalPlan

  datatype RC = Success | Eof | Failure

  /**
    A child operator: what every opening replays before it reports end of data or fails, and which
    calls of `open` and `close` succeed.
   */
  datatype Child = Child(rows: seq<Tuple>, end: RC, opens: nat -> bool, closes: nat -> bool)

  /** `tableScan` tells whether it is a table scan, the only kind of right child that is cached. */
  class Source {
    const child: Child
    const tableScan: bool
    var isOpen: bool
    var pos: nat
    var openings: nat
    var closings: nat

    ghost predicate Valid()
      reads this
    {
      pos <= |child.rows| && !child.end.Success?
    }

    constructor (child: Child, tableScan: bool)
      requires !child.end.Success?
      ensures Valid() && this.child == child && this.tableScan == tableScan && openings == 0 && closings == 0
    {
      this.child, this.tableScan := child, tableScan;
      isOpen, pos, openings, closings := false, 0, 0, 0;
    }

    method Open() returns (rc: RC)
      modifies this
      requires Valid()
      ensures Valid() && openings == old(openings) + 1 && closings == old(closings)
      ensures rc == if child.opens(old(openings)) then Success else Failure
      ensures rc == Success ==> isOpen && pos == 0
    {
      rc := if child.opens(openings) then Success else Failure;
      isOpen, pos, openings := rc == Success, 0, openings + 1;
    }

    method Next() returns (rc: RC)
      modifies this
      requires Valid() && isOpen
      ensures Valid() && isOpen && openings == old(openings) && closings == old(closings)
      ensures old(pos) < |child.rows| ==> rc == Success && pos == old(pos) + 1
      ensures old(pos) == |child.rows| ==> rc == child.end && pos == old(pos)
    {
      if pos < |child.rows| {
        pos := pos + 1;
        rc := Success;
      } else {
        rc := child.end;
      }
    }

    method Close() returns (rc: RC)
      modifies this
      requires Valid()
      ensures Valid() && openings == old(openings) && closings == old(closings) + 1
      ensures rc == if child.closes(old(closings)) then Success else Failure
    {
      rc := if child.closes(closings) then Success else Failure;
      isOpen, closings := false, closings + 1;
    }
  }

  /** The rest of a run: the tuples still to come and the return code that ends them. */
  datatype Script = Script(tuples: seq<Tuple>, end: RC)

  /**
    How the rounds get at the right rows: from the cache, or by reopening the child, which is now
    closed or not and has been opened and closed so many times.
   */
  datatype Access = Cached | Reopened(closed: bool, opens: nat, closes: nat)

  /** A round can start: the child could be closed, if need be, and opened. */
  predicate Starts(right: Child, a: Access) {
    a.Cached? || ((a.closed || right.closes(a.closes)) && right.opens(a.opens))
  }

  function Started(a: Access): Access {
    if a.Cached? then a else Reopened(false, a.opens + 1, if a.closed then a.closes else a.closes + 1)
  }

  /** Reading the right side to its end is an error. */
  predicate Fails(right: Child, a: Access) {
    !a.Cached? && right.end.Failure?
  }

  /** The rounds for the left rows `ls`. */
  function Rounds(ls: seq<Tuple>, leftEnd: RC, right: Child, a: Access): Script {
    if ls == [] then Script([], leftEnd)
    else if !Starts(right, a) then Script([], Failure)
    else if right.rows == [] && !Fails(right, a) then Script([], Eof)
    else if Fails(right, a) then Script(PairWith(ls[0], right.rows), Failure)
    else
      var rest := Rounds(ls[1..], leftEnd, right, Started(a));
      Script(PairWith(ls[0], right.rows) + rest.tuples, rest.end)
  }

  /** A run in the middle of the round of `l`. */
  function Round(l: Tuple, now: seq<Tuple>, ls: seq<Tuple>, leftEnd: RC, right: Child, a: Access): Script {
    if Fails(right, a) then Script(PairWith(l, now), Failure)
    else
      var rest := Rounds(ls, leftEnd, right, a);
      Script(PairWith(l, now) + rest.tuples, rest.end)
  }

  lemma RoundStep(l: Tuple, now: seq<Tuple>, ls: seq<Tuple>, leftEnd: RC, right: Child, a: Access)
    requires now != []
    ensures var s := Round(l, now, ls, leftEnd, right, a);
            s.tuples != [] && s.tuples[0] == Joined(l, now[0])
            && Script(s.tuples[1..], s.end) == Round(l, now[1..], ls, leftEnd, right, a)
  {
    var s := Round(l, now, ls, leftEnd, right, a);
    assert PairWith(l, now) == [Joined(l, now[0])] + PairWith(l, now[1..]);
    assert s.tuples[1..] == Round(l, now[1..], ls, leftEnd, right, a).tuples;
  }

  lemma RoundEnd(l: Tuple, ls: seq<Tuple>, leftEnd: RC, right: Child, a: Access)
    ensures Round(l, [], ls, leftEnd, right, a) == if Fails(right, a) then Script([], Failure) else Rounds(ls, leftEnd, right, a)
  {
    var rest := Rounds(ls, leftEnd, right, a);
    assert [] + rest.tuples == rest.tuples;
  }

  lemma RoundStart(ls: seq<Tuple>, leftEnd: RC, right: Child, a: Access)
    requires ls != []
    ensures Rounds(ls, leftEnd, right, a) ==
      if !Starts(right, a) then Script([], Failure)
      else if right.rows == [] && !Fails(right, a) then Script([], Eof)
      else Round(ls[0], right.rows, ls[1..], leftEnd, right, Started(a))
  {
  }

  /** The access that `try_cache_right` leaves. */
  function Opening(right: Child, tableScan: bool, opens: nat, closes: nat): Access {
    if !tableScan then Reopened(true, opens, closes)
    else if !right.opens(opens) then Reopened(true, opens + 1, closes)
    else if right.rows == [] then Reopened(true, opens + 1, closes + 1)
    else Cached
  }

  class Join {
    const left: Source
    const right: Source
    var leftTuple: Option<Tuple>
    var rightTuple: Option<Tuple>
    var roundDone: bool
    var rightClosed: bool
    var rightCached: bool
    var rightRows: seq<Tuple>
    var cachedIdx: nat

    constructor (left: Source, right: Source)
      requires left != right && left.Valid() && right.Valid()
      ensures this.left == left && this.right == right
    {
      this.left, this.right := left, right;
      leftTuple, rightTuple := None, None;
      roundDone, rightClosed, rightCached, rightRows, cachedIdx := true, true, false, [], 0;
    }

    ghost predicate Valid()
      reads this, left, right
    {
      && left != right && left.Valid() && right.Valid() && left.isOpen
      && (rightCached ==> rightRows == right.child.rows && rightRows != [] && cachedIdx <= |rightRows|)
      && (!rightCached && !roundDone ==> right.isOpen && !rightClosed)
      && (!roundDone ==> leftTuple.Some?)
    }

    ghost function Reach(): Access
      reads this, right
    {
      if rightCached then Cached else Reopened(rightClosed, right.openings, right.closings)
    }

    /** The next place in the right rows. */
    ghost function Place(): nat
      reads this, right
    {
      if rightCached then cachedIdx else right.pos
    }

    /** The rest of the run from the current state. */
    ghost function Rest(): Script
      requires Valid()
      reads this, left, right
    {
      var ls := left.child.rows[left.pos..];
      if roundDone then Rounds(ls, left.child.end, right.child, Reach())
      else Round(leftTuple.value, right.child.rows[Place()..], ls, left.child.end, right.child, Reach())
    }

    /** Fill the cache from a right child that is a table scan with at least one row. */
    method TryCacheRight() returns (ok: bool)
      modifies this`rightRows, this`rightClosed, this`rightCached, right
      requires right.Valid() && !rightCached && rightClosed
      ensures right.Valid() && rightClosed
      ensures Reach() == Opening(right.child, right.tableScan, old(right.openings), old(right.closings))
      ensures rightCached ==> rightRows == right.child.rows
      ensures rightCached <==> right.tableScan && right.child.opens(old(right.openings)) && right.child.rows != []
      ensures right.openings == old(right.openings) + (if right.tableScan then 1 else 0)
      ensures right.closings == old(right.closings) + (if right.tableScan && right.child.opens(old(right.openings)) then 1 else 0)
      ensures ok == (right.tableScan && right.child.opens(old(right.openings)) && right.child.end.Eof?)
    {
      if !right.tableScan {
        return false;
      }
      var rc := right.Open();
      if rc != Success {
        return false;
      }
      rightRows := [];
      rc := right.Next();
      if rc != Success {
        var _ := right.Close();
        rightClosed := true;
        return rc == Eof;
      }
      rc := ReadRest();
      var _ := right.Close();
      rightClosed := true;
      rightCached := true;
      return rc == Eof;
    }

    /** Cache the row just read, and the rows after it. */
    method ReadRest() returns (rc: RC)
      modifies this`rightRows, right
      requires right.Valid() && right.isOpen && right.pos == 1 && rightRows == []
      ensures right.Valid() && right.openings == old(right.openings) && right.closings == old(right.closings)
      ensures rightRows == right.child.rows && rc == right.child.end
    {
      rightRows := [right.child.rows[right.pos - 1]];
      rc := right.Next();
      while rc == Success
        invariant right.Valid() && right.isOpen && right.pos > 0
        invariant right.openings == old(right.openings) && right.closings == old(right.closings)
        invariant rightRows == right.child.rows[..if rc == Success then right.pos - 1 else right.pos]
        invariant rc != Success ==> right.pos == |right.child.rows| && rc == right.child.end
        decreases |right.child.rows| - right.pos, rc == Success
      {
        rightRows := rightRows + [right.child.rows[right.pos - 1]];
        rc := right.Next();
      }
    }

    /** Opening succeeds exactly when that of the left child does. */
    method Open() returns (rc: RC)
      modifies this, left, right
      requires left != right && left.Valid() && right.Valid()
      ensures rc == if left.child.opens(old(left.openings)) then Success else Failure
      ensures rc == Success ==> Valid() && Rest() == Rounds(left.child.rows, left.child.end, right.child,
        Opening(right.child, right.tableScan, old(right.openings), old(right.closings)))
    {
      rightClosed, roundDone, rightCached, rightRows, cachedIdx := true, true, false, [], 0;
      var _ := TryCacheRight();
      rc := left.Open();
      assert left.child.rows[0..] == left.child.rows;
    }

    method LeftNext() returns (rc: RC)
      modifies this`leftTuple, left
      requires Valid() && roundDone
      ensures Valid() && roundDone
      ensures old(left.pos) == |left.child.rows| ==> rc == left.child.end && left.pos == old(left.pos)
      ensures old(left.pos) < |left.child.rows| ==>
                rc == Success && left.pos == old(left.pos) + 1 && leftTuple == Some(left.child.rows[old(left.pos)])
    {
      rc := left.Next();
      if rc == Success {
        leftTuple := Some(left.child.rows[left.pos - 1]);
      }
    }

    /** Begin a round on a right child that is not cached. */
    method Reopen() returns (rc: RC)
      modifies this`roundDone, this`rightClosed, right
      requires Valid() && !rightCached && roundDone && leftTuple.Some?
      ensures Valid()
      ensures rc == if Starts(right.child, old(Reach())) then Success else Failure
      ensures rc == Success ==> !roundDone && right.pos == 0 && Reach() == Started(old(Reach()))
    {
      if !rightClosed {
        rc := right.Close();
        rightClosed := true;
        if rc != Success {
          return;
        }
      }
      rc := right.Open();
      if rc != Success {
        return;
      }
      rightClosed := false;
      roundDone := false;
    }

    /** The next right row of the round, starting a new round if none is open. */
    method RightNext() returns (rc: RC)
      modifies this`rightTuple, this`roundDone, this`rightClosed, this`cachedIdx, right
      requires Valid() && leftTuple.Some?
      ensures Valid()
      ensures
        var starts, reach := old(roundDone), if old(roundDone) then Started(old(Reach())) else old(Reach());
        var at, rows := if starts then 0 else old(Place()), right.child.rows;
        if starts && !Starts(right.child, old(Reach())) then rc == Failure
        else && Reach() == reach
             && if at < |rows| then rc == Success && !roundDone && rightTuple == Some(rows[at]) && Place() == at + 1
                else if Fails(right.child, reach) then rc == Failure
                else rc == Eof && roundDone
    {
      if rightCached {
        if roundDone {
          cachedIdx := 0;
          roundDone := false;
        }
        if cachedIdx >= |rightRows| {
          roundDone := true;
          return Eof;
        }
        rightTuple := Some(rightRows[cachedIdx]);
        cachedIdx := cachedIdx + 1;
        return Success;
      }
      if roundDone {
        rc := Reopen();
        if rc != Success {
          return;
        }
      }
      rc := right.Next();
      if rc != Success {
        if rc == Eof {
          roundDone := true;
        }
        return;
      }
      rightTuple := Some(right.child.rows[right.pos - 1]);
    }

    /** One step of a run: deliver the first tuple of the script `s`, or the code that ends it. */
    ghost predicate Delivered(s: Script, rc: RC)
      requires Valid()
      reads this, left, right
    {
      if s.tuples != []
      then rc == Success && leftTuple.Some? && rightTuple.Some?
           && Joined(leftTuple.value, rightTuple.value) == s.tuples[0] && Rest() == Script(s.tuples[1..], s.end)
      else rc == s.end
    }

    method NextRound() returns (rc: RC)
      modifies this, left, right
      requires Valid() && roundDone
      ensures Valid() && Delivered(old(Rest()), rc)
    {
      ghost var ls, a := left.child.rows[left.pos..], Reach();
      rc := LeftNext();
      if rc != Success {
        return;
      }
      assert ls[0] == leftTuple.value && ls[1..] == left.child.rows[left.pos..];
      RoundStart(ls, left.child.end, right.child, a);
      rc := RightNext();
      if right.child.rows != [] {
        RoundStep(ls[0], right.child.rows, ls[1..], left.child.end, right.child, Started(a));
      } else {
        RoundEnd(ls[0], ls[1..], left.child.end, right.child, Started(a));
      }
    }

    method Next() returns (rc: RC)
      modifies this, left, right
      requires Valid()
      ensures Valid() && Delivered(old(Rest()), rc)
    {
      if !roundDone {
        ghost var at := Place();
        ghost var ls, now := left.child.rows[left.pos..], right.child.rows[at..];
        if now == [] {
          RoundEnd(leftTuple.value, ls, left.child.end, right.child, Reach());
        } else {
          RoundStep(leftTuple.value, now, ls, left.child.end, right.child, Reach());
          assert now[0] == right.child.rows[at] && now[1..] == right.child.rows[at + 1..];
        }
        rc := RightNext();
        if rc != Eof {
          return;
        }
      }
      rc := NextRound();
    }

    /** `next` and, on success, `current_tuple`. */
    method Pull() returns (x: Option<Tuple>, rc: RC)
      modifies this, left, right
      requires Valid()
      ensures Valid()
      ensures var s := old(Rest());
        if s.tuples != [] then rc == Success && x == Some(s.tuples[0]) && Rest() == Script(s.tuples[1..], s.end)
        else rc == s.end
    {
      rc := Next();
      x := if rc == Success && leftTuple.Some? && rightTuple.Some? then Some(Joined(leftTuple.value, rightTuple.value)) else None;
    }

    /** Call `Next` until it ends. */
    method PullAll() returns (out: seq<Tuple>, rc: RC)
      modifies this, left, right
      requires Valid() && !Rest().end.Success?
      ensures Script(out, rc) == old(Rest())
    {
      ghost var all := Rest();
      ghost var tuples, end := all.tuples, all.end;
      out, rc := [], Success;
      while rc == Success
        invariant Valid() && all == Script(out + tuples, end)
        invariant if rc == Success then Rest() == Script(tuples, end) else tuples == [] && rc == end
        decreases if rc == Success then 1 + |tuples| else 0
      {
        var x;
        x, rc := Pull();
        if rc == Success {
          Advance(out, tuples);
          out := out + [x.value];
          tuples := tuples[1..];
        }
      }
      assert out + [] == out;
    }

    /** Open the join and call `Next` until it ends: the whole run. */
    method Drain() returns (out: seq<Tuple>, rc: RC)
      modifies this, left, right
      requires left != right && left.Valid() && right.Valid()
      ensures Script(out, rc) ==
        if !left.child.opens(old(left.openings)) then Script([], Failure)
        else Rounds(left.child.rows, left.child.end, right.child,
                    Opening(right.child, right.tableScan, old(right.openings), old(right.closings)))
      ensures out <= Product(left.child.rows, right.child.rows)
      ensures rc == Eof ==> out == Product(left.child.rows, right.child.rows)
    {
      ghost var a := Opening(right.child, right.tableScan, right.openings, right.closings);
      NothingLost(left.child.rows, left.child.end, right.child, a);
      rc := Open();
      if rc != Success {
        return [], rc;
      }
      out, rc := PullAll();
    }
  }

  lemma Advance(out: seq<Tuple>, tuples: seq<Tuple>)
    requires tuples != []
    ensures out + tuples == (out + [tuples[0]]) + tuples[1..]
  {
  }

  /** Whatever fails: only pairs are delivered, in order, and end of data means all of them. */
  lemma {:induction false} NothingLost(ls: seq<Tuple>, leftEnd: RC, right: Child, a: Access)
    requires !leftEnd.Success?
    ensures var s := Rounds(ls, leftEnd, right, a);
      && !s.end.Success? && s.tuples <= Product(ls, right.rows)
      && (s.end == Eof ==> s.tuples == Product(ls, right.rows))
  {
    if right.rows == [] { NoPairs(ls); }
    if ls != [] {
      NothingLost(ls[1..], leftEnd, right, Started(a));
    }
  }

  /** Round `k` can start. */
  predicate StartsAt(right: Child, a: Access, k: nat) {
    a.Cached? || (right.opens(a.opens + k) && ((k == 0 && a.closed) || right.closes(if a.closed then a.closes + k - 1 else a.closes + k)))
  }

  lemma StartsFirst(right: Child, a: Access, n: nat)
    requires n > 0
    ensures (forall k :: 0 <= k < n ==> StartsAt(right, a, k)) <==>
      Starts(right, a) && forall k :: 0 <= k < n - 1 ==> StartsAt(right, Started(a), k)
  {
    assert StartsAt(right, a, 0) == Starts(right, a);
    assert forall k: nat {:trigger StartsAt(right, Started(a), k)} :: StartsAt(right, Started(a), k) == StartsAt(right, a, k + 1);
    if Starts(right, a) && forall k :: 0 <= k < n - 1 ==> StartsAt(right, Started(a), k) {
      forall k | 0 <= k < n ensures StartsAt(right, a, k) {
        if k > 0 { assert StartsAt(right, Started(a), k - 1); }
      }
    }
  }

  /** Exactly when all pairs are delivered, followed by end of data, if there are right rows. */
  lemma {:induction false} AllPairsNonempty(ls: seq<Tuple>, leftEnd: RC, right: Child, a: Access)
    requires right.rows != []
    ensures Rounds(ls, leftEnd, right, a) == Script(Product(ls, right.rows), Eof) <==>
      leftEnd == Eof && (ls == [] || !Fails(right, a)) && forall k :: 0 <= k < |ls| ==> StartsAt(right, a, k)
  {
    if ls != [] {
      AllPairsNonempty(ls[1..], leftEnd, right, Started(a));
      StartsFirst(right, a, |ls|);
      if Starts(right, a) && !Fails(right, a) {
        Cancel(PairWith(ls[0], right.rows), Rounds(ls[1..], leftEnd, right, Started(a)).tuples, Product(ls[1..], right.rows));
      }
    }
  }

  /** The same for any right side: an empty one ends the join in its first round. */
  lemma AllPairs(ls: seq<Tuple>, leftEnd: RC, right: Child, a: Access)
    ensures Rounds(ls, leftEnd, right, a) == Script(Product(ls, right.rows), Eof) <==>
      && (ls == [] || a.Cached? || !right.end.Failure?)
      && (ls == [] || right.rows != [] ==> leftEnd == Eof)
      && (forall k :: 0 <= k < (if right.rows == [] && ls != [] then 1 else |ls|) ==> StartsAt(right, a, k))
  {
    if right.rows == [] {
      NoPairs(ls);
      assert StartsAt(right, a, 0) == Starts(right, a);
    } else {
      AllPairsNonempty(ls, leftEnd, right, a);
    }
  }

  lemma Cancel(p: seq<Tuple>, x: seq<Tuple>, y: seq<Tuple>)
    ensures p + x == p + y <==> x == y
  {
    assert x == (p + x)[|p|..] && y == (p + y)[|p|..];
  }

  lemma {:induction false} NoPairs(ls: seq<Tuple>)
    ensures Product(ls, []) == []
  {
    if ls != [] { NoPairs(ls[1..]); }
  }
}
