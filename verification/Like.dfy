/**
  The LIKE matcher of the expression evaluator (src/observer/sql/expr/expression.cpp).

  `Matches` is the meaning of LIKE: `_` stands for one character, `%` for any run of characters.
  `Scan` is what the evaluator computes: one cursor per string, and a single remembered `%` to
  fall back to.  `MatchLike` is the loop itself.
 */
module Like {

  predicate Matches(s: string, p: string)
    decreases |s| + |p|
  {
    if p == "" then s == ""
    else if p[0] == '%' then Matches(s, p[1..]) || (s != "" && Matches(s[1..], p))
    else s != "" && (p[0] == '_' || p[0] == s[0]) && Matches(s[1..], p[1..])
  }

  predicate OnlyPercent(p: string) {
    forall i :: 0 <= i < |p| ==> p[i] == '%'
  }

  /** Cursor positions that the loop can be in. */
  predicate InRange(s: string, p: string, si: nat, pi: nat, star: int, m: nat) {
    && m <= si <= |s| && pi <= |p|
    && -1 <= star < pi
    && (star >= 0 ==> p[star] == '%')
  }

  /** The rest of the loop from cursors `si`, `pi` when `star` is the last `%` taken and `m` its retry point. */
  predicate Scan(s: string, p: string, si: nat, pi: nat, star: int, m: nat)
    requires InRange(s, p, si, pi, star, m)
    decreases |p| - star, |s| - m, |s| - si
  {
    if si == |s| then OnlyPercent(p[pi..])
    else if pi < |p| && (p[pi] == '_' || p[pi] == s[si]) then Scan(s, p, si + 1, pi + 1, star, m)
    else if pi < |p| && p[pi] == '%' then Scan(s, p, si, pi + 1, pi, si)
    else if star != -1 then Scan(s, p, m + 1, star + 1, star, m + 1)
    else false
  }

  predicate Greedy(s: string, p: string) {
    Scan(s, p, 0, 0, -1, 0)
  }

  /** The loop terminates, never accepts a non-match, and decides LIKE for every subject without `%`. */
  method MatchLike(str: string, pattern: string) returns (r: bool)
    ensures r == Greedy(str, pattern)
    ensures r ==> Matches(str, pattern)
    ensures '%' !in str ==> r == Matches(str, pattern)
  {
    if Greedy(str, pattern) { Sound(str, pattern); }
    if '%' !in str && Matches(str, pattern) { Complete(str, pattern); }
    var si, pi := 0, 0;
    var star, m := -1, 0;
    while si < |str|
      invariant InRange(str, pattern, si, pi, star, m)
      invariant Scan(str, pattern, si, pi, star, m) == Greedy(str, pattern)
      decreases |pattern| - star, |str| - m, |str| - si
    {
      if pi < |pattern| && pattern[pi] == '_' {
        si := si + 1;
        pi := pi + 1;
      } else if pi < |pattern| && pattern[pi] == str[si] {
        si := si + 1;
        pi := pi + 1;
      } else if pi < |pattern| && pattern[pi] == '%' {
        star := pi;
        m := si;
        pi := pi + 1;
      } else if star != -1 {
        pi := star + 1;
        m := m + 1;
        si := m;
      } else {
        return false;
      }
    }
    while pi < |pattern| && pattern[pi] == '%'
      invariant pi <= |pattern|
      invariant Greedy(str, pattern) == OnlyPercent(pattern[pi..])
    {
      assert pattern[pi..] == [pattern[pi]] + pattern[pi + 1..];
      pi := pi + 1;
    }
    r := pi == |pattern|;
    if !r {
      assert pattern[pi..][0] != '%';
    }
  }

  lemma {:induction false} EmptySubject(p: string)
    ensures Matches("", p) == OnlyPercent(p)
  {
    if p != "" {
      EmptySubject(p[1..]);
      assert p == [p[0]] + p[1..];
    }
  }

  /** `%` may swallow any prefix of the subject. */
  lemma {:induction false} PercentSkips(s: string, p: string, k: nat)
    requires k <= |s| && p != "" && p[0] == '%' && Matches(s[k..], p)
    ensures Matches(s, p)
  {
    if k > 0 {
      assert s[1..][k - 1..] == s[k..];
      PercentSkips(s[1..], p, k - 1);
    } else {
      assert s[0..] == s;
    }
  }

  /** A `%` match picks the place where the rest of the pattern starts. */
  lemma {:induction false} PercentPicks(s: string, p: string) returns (k: nat)
    requires p != "" && p[0] == '%' && Matches(s, p)
    ensures k <= |s| && Matches(s[k..], p[1..])
  {
    if Matches(s, p[1..]) {
      k := 0;
      assert s[0..] == s;
    } else {
      var j := PercentPicks(s[1..], p);
      k := j + 1;
      assert s[1..][j..] == s[k..];
    }
  }

  /** A run of `n` pattern characters without `%` consumes exactly `n` subject characters. */
  lemma {:induction false} RunConsumes(s: string, p: string, n: nat)
    requires n <= |p| && '%' !in p[..n] && Matches(s, p)
    ensures n <= |s| && Matches(s[n..], p[n..])
  {
    if n == 0 {
      assert s[0..] == s && p[0..] == p;
    } else {
      assert p[0] == p[..n][0];
      assert p[1..][..n - 1] == p[..n][1..];
      RunConsumes(s[1..], p[1..], n - 1);
      assert s[1..][n - 1..] == s[n..] && p[1..][n - 1..] == p[n..];
    }
  }

  /** What the loop still has to decide: the current attempt, or a later retry of the last `%`. */
  predicate Pending(s: string, p: string, si: nat, pi: nat, star: int, m: nat)
    requires InRange(s, p, si, pi, star, m)
  {
    Matches(s[si..], p[pi..]) || (star >= 0 && Matches(s[m..], p[star..]))
  }

  /** The attempt in progress has matched the `%`-free run between the last `%` and the cursor. */
  predicate Attempt(p: string, si: nat, pi: nat, star: int, m: nat)
    requires pi <= |p| && -1 <= star < pi
  {
    star >= 0 ==> pi - star - 1 == si - m && '%' !in p[star + 1..pi]
  }

  lemma {:induction false} AcceptedIsPending(s: string, p: string, si: nat, pi: nat, star: int, m: nat)
    requires InRange(s, p, si, pi, star, m) && Scan(s, p, si, pi, star, m)
    ensures Pending(s, p, si, pi, star, m)
    decreases |p| - star, |s| - m, |s| - si
  {
    if si == |s| {
      EmptySubject(p[pi..]);
      assert s[si..] == "";
    } else {
      assert s[si..][1..] == s[si + 1..];
      if pi < |p| {
        assert p[pi..][1..] == p[pi + 1..];
      }
      if pi < |p| && (p[pi] == '_' || p[pi] == s[si]) {
        AcceptedIsPending(s, p, si + 1, pi + 1, star, m);
      } else if pi < |p| && p[pi] == '%' {
        AcceptedIsPending(s, p, si, pi + 1, pi, si);
      } else {
        assert s[m..][1..] == s[m + 1..] && p[star..][1..] == p[star + 1..];
        AcceptedIsPending(s, p, m + 1, star + 1, star, m + 1);
      }
    }
  }

  /** Where a pending match really starts: at the cursor, or by retrying the last `%` at some `k >= m`. */
  lemma Retry(s: string, p: string, si: nat, pi: nat, star: int, m: nat) returns (k: nat)
    requires InRange(s, p, si, pi, star, m) && Attempt(p, si, pi, star, m)
    requires star >= 0 && Matches(s[m..], p[star..])
    ensures m <= k && k + (si - m) <= |s|
    ensures Matches(s[k..], p[star + 1..]) && Matches(s[k + (si - m)..], p[pi..])
  {
    assert p[star..][1..] == p[star + 1..];
    var j := PercentPicks(s[m..], p[star..]);
    assert s[m..][j..] == s[m + j..];
    assert p[star + 1..][..pi - star - 1] == p[star + 1..pi];
    RunConsumes(s[m + j..], p[star + 1..], pi - star - 1);
    k := m + j;
    assert s[k..][si - m..] == s[k + (si - m)..] && p[star + 1..][si - m..] == p[pi..];
  }

  /** At the end of the subject only the current attempt can still succeed. */
  lemma PendingAtEnd(s: string, p: string, si: nat, pi: nat, star: int, m: nat)
    requires InRange(s, p, si, pi, star, m) && Attempt(p, si, pi, star, m)
    requires Pending(s, p, si, pi, star, m) && si == |s|
    ensures OnlyPercent(p[pi..])
  {
    if !Matches(s[si..], p[pi..]) {
      var k := Retry(s, p, si, pi, star, m);
    }
    assert s[si..] == "";
    EmptySubject(p[pi..]);
  }

  /** Meeting a new `%` makes earlier ones irrelevant: it can swallow whatever they could have. */
  lemma PendingAtPercent(s: string, p: string, si: nat, pi: nat, star: int, m: nat)
    requires InRange(s, p, si, pi, star, m) && Attempt(p, si, pi, star, m)
    requires Pending(s, p, si, pi, star, m) && pi < |p| && p[pi] == '%'
    ensures Matches(s[si..], p[pi..])
  {
    if !Matches(s[si..], p[pi..]) {
      var k := Retry(s, p, si, pi, star, m);
      assert s[si..][k - m..] == s[k + (si - m)..];
      PercentSkips(s[si..], p[pi..], k - m);
    }
  }

  /** A failed attempt at `m` leaves the retries after `m`. */
  lemma PendingAfterMismatch(s: string, p: string, si: nat, pi: nat, star: int, m: nat)
    requires InRange(s, p, si, pi, star, m) && Attempt(p, si, pi, star, m)
    requires Pending(s, p, si, pi, star, m) && !Matches(s[si..], p[pi..]) && si < |s|
    ensures star >= 0 && Matches(s[m + 1..], p[star..])
  {
    var k := Retry(s, p, si, pi, star, m);
    assert s[m + 1..][k - m - 1..] == s[k..];
    assert p[star..][1..] == p[star + 1..];
    PercentSkips(s[m + 1..], p[star..], k - m - 1);
  }

  lemma {:induction false} PendingIsAccepted(s: string, p: string, si: nat, pi: nat, star: int, m: nat)
    requires '%' !in s
    requires InRange(s, p, si, pi, star, m) && Attempt(p, si, pi, star, m)
    requires Pending(s, p, si, pi, star, m)
    ensures Scan(s, p, si, pi, star, m)
    decreases |p| - star, |s| - m, |s| - si
  {
    if si == |s| {
      PendingAtEnd(s, p, si, pi, star, m);
    } else {
      assert s[si..][0] == s[si] && s[si..][1..] == s[si + 1..];
      if pi < |p| && (p[pi] == '_' || p[pi] == s[si]) {
        assert p[pi..][0] == p[pi] && p[pi..][1..] == p[pi + 1..];
        assert p[pi] != '%' by { assert s[si] in s; }
        if star >= 0 {
          assert p[star + 1..pi + 1] == p[star + 1..pi] + [p[pi]];
        }
        PendingIsAccepted(s, p, si + 1, pi + 1, star, m);
      } else if pi < |p| && p[pi] == '%' {
        PendingAtPercent(s, p, si, pi, star, m);
        PendingIsAccepted(s, p, si, pi + 1, pi, si);
      } else {
        PendingAfterMismatch(s, p, si, pi, star, m) by {
          if pi < |p| { assert p[pi..][0] == p[pi]; }
        }
        PendingIsAccepted(s, p, m + 1, star + 1, star, m + 1);
      }
    }
  }

  /** Whatever the subject, an accepted pair is a LIKE match. */
  lemma Sound(s: string, p: string)
    requires Greedy(s, p)
    ensures Matches(s, p)
  {
    AcceptedIsPending(s, p, 0, 0, -1, 0);
    assert s[0..] == s && p[0..] == p;
  }

  lemma Complete(s: string, p: string)
    requires '%' !in s && Matches(s, p)
    ensures Greedy(s, p)
  {
    assert s[0..] == s && p[0..] == p;
    PendingIsAccepted(s, p, 0, 0, -1, 0);
  }

  function Underscores(n: nat): (r: string)
    ensures |r| == n && forall i :: 0 <= i < n ==> r[i] == '_'
  {
    seq(n, _ => '_')
  }

  /** The pattern that a subject with its first `%` at `i` defeats: `i` times `_`, then `%`, then enough `_`. */
  function Defeating(s: string, i: nat): (r: string)
    requires i < |s|
    ensures |r| == |s| + 1
    ensures forall k :: 0 <= k < |r| ==> r[k] == if k == i then '%' else '_'
  {
    Underscores(i) + "%" + Underscores(|s| - i)
  }

  lemma {:induction false} UnderscoresMatch(s: string)
    ensures Matches(s, Underscores(|s|))
  {
    if s != "" {
      UnderscoresMatch(s[1..]);
      assert Underscores(|s|)[1..] == Underscores(|s| - 1);
    }
  }

  lemma {:induction false} DefeatingMatches(s: string, t: string, i: nat)
    requires i < |s| && t == Defeating(s, i)
    ensures Matches(s, t)
  {
    if i == 0 {
      UnderscoresMatch(s);
      assert t[1..] == Underscores(|s|);
    } else {
      DefeatingMatches(s[1..], t[1..], i - 1) by {
        assert t[1..] == Defeating(s[1..], i - 1);
      }
    }
  }

  lemma {:induction false} DefeatingRejected(s: string, i: nat, j: nat)
    requires i < |s| && s[i] == '%' && j <= |s|
    ensures !Scan(s, Defeating(s, i), j, j, -1, 0)
    decreases |s| - j
  {
    var p := Defeating(s, i);
    if j == |s| {
      assert p[j..][0] == '_';
    } else {
      assert p[j] == '_' || p[j] == s[j];
      DefeatingRejected(s, i, j + 1);
    }
  }

  /**
    The evaluator agrees with LIKE on every pattern exactly for the subjects without `%`: the
    literal comparison runs before the `%` test, so a `%` in the subject hides one in the pattern.
   */
  lemma ExactOnPercentFreeSubjects(s: string)
    ensures (forall p :: Greedy(s, p) == Matches(s, p)) <==> '%' !in s
  {
    if '%' in s {
      var i :| 0 <= i < |s| && s[i] == '%';
      var p := Defeating(s, i);
      DefeatingMatches(s, p, i);
      DefeatingRejected(s, i, 0);
      assert Greedy(s, p) != Matches(s, p);
    } else {
      forall p ensures Greedy(s, p) == Matches(s, p) {
        if Greedy(s, p) { Sound(s, p); }
        if Matches(s, p) { Complete(s, p); }
      }
    }
  }
}
