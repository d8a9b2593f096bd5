/** How failed posts close the gate for the posts after them. */
module FailureRows {
  import opened BotStates
  import opened SampleWindows
  import opened RuntimeInvariant
  import opened OrderflowTrace
  import opened OrderflowRun
  import opened BundleShape

  function Falses(n: nat): (r: seq<bool>)
  {
    seq(n, _ => false)
  }

  lemma {:induction false} CountFalses(n: nat)
    ensures CountFailed(Falses(n)) == n
  {
    if n > 0 {
      CountFalses(n - 1);
      assert Falses(n)[1..] == Falses(n - 1);
    }
  }

  /** The x-th transaction sample counted at this post's gate: it was in the window, and among the
      last 20,000. */
  ghost predicate CountedAt(limits: Limits, p: Post, x: nat)
  {
    x < |p.tx| && |p.tx| - CAPACITY <= x && p.moment.gateAt - Seconds(limits.txFailWindowMin) <= p.tx[x].ts
  }

  ghost predicate FailureKeptAt(limits: Limits, first: Post, last: Post, x: nat)
  {
    x < |last.tx| && !last.tx[x].value && (|first.tx| <= x || CountedAt(limits, first, x)) ==>
      CountedAt(limits, last, x)
  }

  /** Of the failures that counted at the gate of `first` and those made from there on, none has left
      the window or been evicted at the gate of `last`. Successes may have. */
  ghost predicate NoFailureLost(limits: Limits, first: Post, last: Post)
  {
    forall x: nat :: FailureKeptAt(limits, first, last, x)
  }

  /** What a post's gate counted. */
  ghost function Window(limits: Limits, p: Post): seq<bool>
  {
    InWindow(Recent(p.tx), p.moment.gateAt - Seconds(limits.txFailWindowMin))
  }

  /** Failed posts in a row reach the gate of the post after them as exactly that many more failures,
      in a window that has grown by no more than that. */
  lemma WindowGrows(limits: Limits, posts: seq<Post>, before: seq<Sample<bool>>, after: seq<Sample<bool>>, i: nat,
                    j: nat)
    requires Fed(posts, before, after) && i <= j < |posts|
    requires forall l :: i <= l < j ==> !posts[l].Ok()
    requires NoFailureLost(limits, posts[i], posts[j])
    ensures var w, w' := Window(limits, posts[i]), Window(limits, posts[j]);
            CountFailed(w') == CountFailed(w) + (j - i) && |w'| <= |w| + (j - i)
  {
    HistoryBetween(posts, before, after, i, j);
    RowOfFailures(posts, before, after, i, j);
    if i < j { AnswerBeforeGate(posts, before, after, i, j); }
    var h, row, w := posts[i].tx, Results(posts)[i..j], Seconds(limits.txFailWindowMin);
    var c, c' := posts[i].moment.gateAt - w, posts[j].moment.gateAt - w;
    forall x: nat | x < |h + row| ensures StaysAt(h, row, c, c', x) {
      assert FailureKeptAt(limits, posts[i], posts[j], x);
    }
    GrowBy(h, row, c, c');
  }

  lemma RowOfFailures(posts: seq<Post>, before: seq<Sample<bool>>, after: seq<Sample<bool>>, i: nat, j: nat)
    requires Fed(posts, before, after) && i <= j < |posts|
    requires forall l :: i <= l < j ==> !posts[l].Ok()
    ensures var row := Results(posts)[i..j];
            FailuresOnly(row) && forall l :: 0 <= l < |row| ==> posts[i].moment.gateAt <= row[l].ts
  {
    forall l | i <= l < j ensures posts[i].moment.gateAt <= posts[l].moment.resultAt {
      assert FedAt(posts, before, i) && FedAt(posts, before, l);
      if i < l { AnswerBeforeGate(posts, before, after, i, l); }
    }
  }

  lemma AnswerBeforeGate(posts: seq<Post>, before: seq<Sample<bool>>, after: seq<Sample<bool>>, i: nat, j: nat)
    requires Fed(posts, before, after) && i < j < |posts|
    ensures posts[i].moment.gateAt <= posts[i].moment.resultAt <= posts[j].moment.gateAt
  {
    assert FedAt(posts, before, i) && FedAt(posts, before, j);
    assert ByAt(posts[..j], i, posts[j].moment.gateAt);
  }

  lemma HistoryBetween(posts: seq<Post>, before: seq<Sample<bool>>, after: seq<Sample<bool>>, i: nat, j: nat)
    requires Fed(posts, before, after) && i <= j < |posts|
    ensures posts[j].tx == posts[i].tx + Results(posts)[i..j]
  {
    assert FedAt(posts, before, i) && FedAt(posts, before, j);
    assert Results(posts)[..j] == Results(posts)[..i] + Results(posts)[i..j];
  }

  /** If the x-th sample is a failure of the row, or one of the history that counted at cutoff c, then
      it still counts at cutoff c' once the row is appended. */
  ghost predicate StaysAt(h: seq<Sample<bool>>, row: seq<Sample<bool>>, c: real, c': real, x: nat)
    requires x < |h + row|
  {
    !(h + row)[x].value && (|h| <= x || (|h| - CAPACITY <= x && c <= h[x].ts)) ==>
      |h + row| - CAPACITY <= x && c' <= (h + row)[x].ts
  }

  ghost predicate AllStay(h: seq<Sample<bool>>, row: seq<Sample<bool>>, c: real, c': real)
  {
    forall x: nat :: x < |h + row| ==> StaysAt(h, row, c, c', x)
  }

  ghost predicate FailuresOnly(row: seq<Sample<bool>>)
  {
    forall l :: 0 <= l < |row| ==> !row[l].value
  }

  lemma RowStays(h: seq<Sample<bool>>, row: seq<Sample<bool>>, c: real, c': real)
    requires FailuresOnly(row) && AllStay(h, row, c, c')
    ensures |row| <= CAPACITY && forall l :: 0 <= l < |row| ==> c' <= row[l].ts
  {
    if row != [] { assert StaysAt(h, row, c, c', |h|); }
    forall l | 0 <= l < |row| ensures c' <= row[l].ts { assert StaysAt(h, row, c, c', |h| + l); }
  }

  /** The window over a history extended by failures, when no failure is lost. */
  lemma GrowBy(h: seq<Sample<bool>>, row: seq<Sample<bool>>, c: real, c': real)
    requires c <= c' && FailuresOnly(row) && AllStay(h, row, c, c')
    ensures var g, g' := InWindow(Recent(h), c), InWindow(Recent(h + row), c');
            CountFailed(g') == CountFailed(g) + |row| && |g'| <= |g| + |row|
  {
    RowStays(h, row, c, c');
    var tail := h[|h| - Kept(h, row)..];
    RecentConcat(h, row);
    WindowConcat(tail, row, c');
    FreshFailures(row, c');
    CountFailedConcat(InWindow(tail, c'), Falses(|row|));
    CountFalses(|row|);
    TailStays(h, row, c, c');
  }

  lemma TailStays(h: seq<Sample<bool>>, row: seq<Sample<bool>>, c: real, c': real)
    requires c <= c' && |row| <= CAPACITY && AllStay(h, row, c, c')
    ensures var g, g' := InWindow(Recent(h), c), InWindow(h[|h| - Kept(h, row)..], c');
            CountFailed(g') == CountFailed(g) && |g'| <= |g|
  {
    var s := Recent(h);
    var tail := h[|h| - Kept(h, row)..];
    RecentConcat(h, row);
    forall i | 0 <= i < |s| && !s[i].value && c <= s[i].ts ensures |s| - |tail| <= i && c' <= s[i].ts {
      assert s[i] == h[|h| - |s| + i] && StaysAt(h, row, c, c', |h| - |s| + i);
    }
    Thin(s, tail, c, c');
  }

  /** How much of a history is still among the last 20,000 samples after a row is appended. */
  function Kept(h: seq<Sample<bool>>, row: seq<Sample<bool>>): (n: nat)
    requires |row| <= CAPACITY
    ensures n <= |h|
  {
    if |h| + |row| <= CAPACITY then |h| else CAPACITY - |row|
  }

  lemma RecentConcat(h: seq<Sample<bool>>, row: seq<Sample<bool>>)
    requires |row| <= CAPACITY
    ensures var tail := h[|h| - Kept(h, row)..];
            Recent(h + row) == tail + row && |tail| <= |Recent(h)| && tail == Recent(h)[|Recent(h)| - |tail|..]
  {
  }

  lemma FreshFailures(row: seq<Sample<bool>>, cutoff: real)
    requires forall l :: 0 <= l < |row| ==> !row[l].value && cutoff <= row[l].ts
    ensures InWindow(row, cutoff) == Falses(|row|)
  {
    WindowOfFresh(row, cutoff);
  }

  /** Dropping samples from the front and tightening the window past successes only keeps the count
      of failures and adds nothing. */
  lemma Thin(s: seq<Sample<bool>>, tail: seq<Sample<bool>>, c: real, c': real)
    requires |tail| <= |s| && tail == s[|s| - |tail|..] && c <= c'
    requires forall i :: 0 <= i < |s| && !s[i].value && c <= s[i].ts ==> |s| - |tail| <= i && c' <= s[i].ts
    ensures CountFailed(InWindow(tail, c')) == CountFailed(InWindow(s, c)) && |InWindow(tail, c')| <= |InWindow(s, c)|
  {
    var head := s[..|s| - |tail|];
    assert s == head + tail;
    WindowConcat(head, tail, c);
    CountFailedConcat(InWindow(head, c), InWindow(tail, c));
    NoFailures(head, c);
    Tighten(tail, c, c');
  }

  lemma {:induction false} NoFailures(s: seq<Sample<bool>>, c: real)
    requires forall i :: 0 <= i < |s| && !s[i].value ==> s[i].ts < c
    ensures CountFailed(InWindow(s, c)) == 0
  {
    if s != [] {
      assert forall i :: 0 <= i < |s[1..]| ==> s[1..][i] == s[i + 1];
      NoFailures(s[1..], c);
      if s[0].ts >= c { assert InWindow(s, c)[1..] == InWindow(s[1..], c); }
    }
  }

  lemma {:induction false} Tighten(s: seq<Sample<bool>>, c: real, c': real)
    requires c <= c' && forall i :: 0 <= i < |s| && !s[i].value && c <= s[i].ts ==> c' <= s[i].ts
    ensures CountFailed(InWindow(s, c')) == CountFailed(InWindow(s, c)) && |InWindow(s, c')| <= |InWindow(s, c)|
  {
    if s != [] {
      assert forall i :: 0 <= i < |s[1..]| ==> s[1..][i] == s[i + 1];
      Tighten(s[1..], c, c');
      if s[0].ts >= c { assert InWindow(s, c)[1..] == InWindow(s[1..], c); }
      if s[0].ts >= c' { assert InWindow(s, c')[1..] == InWindow(s[1..], c'); }
    }
  }

  /** `k` more failures break the failure-rate rule on window `w`. */
  predicate Breaks(w: seq<bool>, k: nat, rate: real)
  {
    Above(CountFailed(w) + k, |w| + k, rate)
  }

  /** That is the health rule itself on the window with those failures appended: it objects exactly when
      the failures in the window and those k, out of all samples in the window and those k, are above
      the limit. */
  lemma BreaksMeans(w: seq<bool>, k: nat, rate: real)
    ensures Breaks(w, k, rate) <==> Exceeds(FailureRate(w + Falses(k)), rate)
  {
    CountFailedConcat(w, Falses(k));
    CountFalses(k);
    RateExceeds(w + Falses(k), rate);
  }

  lemma RateExceeds(g: seq<bool>, rate: real)
    ensures Exceeds(FailureRate(g), rate) <==> Above(CountFailed(g), |g|, rate)
  {
    if g != [] { RatioAbove(CountFailed(g), |g|, rate); }
  }

  lemma AllowedDoesNotBreak(limits: Limits, p: Post)
    requires Allowed(limits, p)
    ensures !Breaks(Window(limits, p), 0, limits.txFailRate)
  {
    AllowedMeans(limits, p);
    RateExceeds(Window(limits, p), limits.txFailRate);
  }

  /** A post that follows failures in a row was let through only because that many more failures
      do not break the failure-rate rule on the window the row started with. */
  lemma PostAfterFailures(limits: Limits, posts: seq<Post>, before: seq<Sample<bool>>, after: seq<Sample<bool>>,
                          i: nat, j: nat)
    requires Fed(posts, before, after) && i <= j < |posts| && Allowed(limits, posts[j])
    requires forall l :: i <= l < j ==> !posts[l].Ok()
    requires NoFailureLost(limits, posts[i], posts[j])
    ensures !Breaks(Window(limits, posts[i]), j - i, limits.txFailRate)
  {
    AllowedDoesNotBreak(limits, posts[j]);
    if i < j {
      WindowGrows(limits, posts, before, after, i, j);
      var w, w' := Window(limits, posts[i]), Window(limits, posts[j]);
      FewerSamples(CountFailed(w'), |w'|, |w| + (j - i), limits.txFailRate);
    }
  }

  /** The same failures among more samples are no larger a share. */
  lemma FewerSamples(f: nat, n: nat, n': nat, rate: real)
    requires 0 < n <= n' && !Above(f, n, rate)
    ensures !Above(f, n', rate)
  {
    var d := (n' - n) as real;
    assert rate < 0.0 ==> rate * n as real < 0.0;
    assert 0.0 <= rate * d;
    assert rate * n' as real == rate * n as real + rate * d;
  }

  /** Once the rule is broken, more failures keep it broken. */
  lemma BreaksPersists(w: seq<bool>, k: nat, m: nat, rate: real)
    requires Breaks(w, k, rate) && k <= m
    ensures Breaks(w, m, rate)
  {
    AboveGrows(CountFailed(w) + k, |w| + k, m - k, rate);
  }

  lemma AboveGrows(f: nat, n: nat, more: nat, rate: real)
    requires f <= n && Above(f, n, rate)
    ensures Above(f + more, n + more, rate)
  {
    AboveGrowsBy(f as real, n as real, more as real, rate);
  }

  lemma AboveGrowsBy(f: real, n: real, more: real, rate: real)
    requires f <= n && 0.0 < n && 0.0 <= more && f > rate * n
    ensures f + more > rate * (n + more)
  {
    assert rate * (n + more) == rate * n + rate * more;
    AtMostWhole(f, n, rate);
    assert rate * more <= more by { NonNegative(1.0 - rate, more); assert (1.0 - rate) * more == more - rate * more; }
  }

  lemma AtMostWhole(f: real, n: real, rate: real)
    requires f <= n && 0.0 < n && f > rate * n
    ensures rate < 1.0
  {
    assert (rate - 1.0) * n == rate * n - n;
    if 1.0 <= rate { NonNegative(rate - 1.0, n); }
  }

  lemma NonNegative(x: real, y: real)
    requires 0.0 <= x && 0.0 <= y
    ensures 0.0 <= x * y
  {
  }

  /** A row of failed posts, from the i-th to the j-th, is at most k long when k more failures
      break the rule, whatever the window held when the row started. */
  lemma FailedRowBound(limits: Limits, posts: seq<Post>, before: seq<Sample<bool>>, after: seq<Sample<bool>>, i: nat,
                       j: nat, k: nat)
    requires Fed(posts, before, after) && i <= j < |posts| && Allowed(limits, posts[j])
    requires forall l :: i <= l <= j ==> !posts[l].Ok()
    requires NoFailureLost(limits, posts[i], posts[j])
    requires Breaks(Window(limits, posts[i]), k, limits.txFailRate)
    ensures j - i + 1 <= k
  {
    PostAfterFailures(limits, posts, before, after, i, j);
    if k <= j - i { BreaksPersists(Window(limits, posts[i]), k, j - i, limits.txFailRate); }
  }

  lemma OneBreaks(rate: real)
    ensures Breaks([], 1, rate) <==> rate < 1.0
  {
    assert rate * 1.0 == rate;
  }

  /** From an empty window one failure closes the gate, for any limit below 100%. */
  lemma OneFailureFromEmptyWindow(limits: Limits, posts: seq<Post>, before: seq<Sample<bool>>,
                                  after: seq<Sample<bool>>, i: nat, j: nat)
    requires Fed(posts, before, after) && i <= j < |posts| && Allowed(limits, posts[j])
    requires forall l :: i <= l <= j ==> !posts[l].Ok()
    requires NoFailureLost(limits, posts[i], posts[j])
    requires Window(limits, posts[i]) == [] && limits.txFailRate < 1.0
    ensures i == j
  {
    OneBreaks(limits.txFailRate);
    FailedRowBound(limits, posts, before, after, i, j, 1);
  }

  /** If k more failures break the rule on what the first gate counted, and no counted failure is lost
      up to the last failed post, then at most k posts failed. */
  ghost predicate FailuresWithin(limits: Limits, posts: seq<Post>, k: nat)
  {
    var failed := if LastOk(posts) then |posts| - 1 else |posts|;
    0 < failed && Breaks(Window(limits, posts[0]), k, limits.txFailRate)
      && NoFailureLost(limits, posts[0], posts[failed - 1])
    ==> failed <= k
  }

  /** The failed posts of a single-transaction submission are one row, so the bound is one on all of
      them. */
  lemma FailuresInSubmission(limits: Limits, names: seq<Name>, tx: Tx, posts: seq<Post>, before: seq<Sample<bool>>)
    requires SingleShape(names, tx, posts) && AllAllowed(limits, posts) && Fed(posts, before, before + Results(posts))
    ensures forall k :: FailuresWithin(limits, posts, k)
  {
    var failed := if LastOk(posts) then |posts| - 1 else |posts|;
    forall k ensures FailuresWithin(limits, posts, k) {
      if 0 < failed && Breaks(Window(limits, posts[0]), k, limits.txFailRate)
        && NoFailureLost(limits, posts[0], posts[failed - 1]) {
        forall l | 0 <= l < failed ensures !posts[l].Ok() {
          if l + 1 < |posts| { assert SingleAt(names, tx, posts, l + 1); }
        }
        assert AllowedAt(limits, posts, failed - 1);
        FailedRowBound(limits, posts, before, before + Results(posts), 0, failed - 1, k);
      }
    }
  }

  // A failure that leaves

  /** A healthy operator, no guard, an rpc error every 400 seconds. */
  function SlowFailure(n: nat): Moment
  {
    var t := (400 * n) as real;
    Moment(OperatorState(false, true), 0.0, Guard(false, true, {}), t, t, 1.0, t, RpcError)
  }

  /** The condition on failures is needed: with a window of five minutes and a limit of one half, one
      failure from an empty window breaks the rule, and yet this run posts twice and fails twice,
      because the first failure has left the window before the second gate. */
  lemma LostFailureBreaksBound() returns (limits: Limits, env: nat -> Moment, posts: seq<Post>)
    ensures TimelyFrom(env, 0.0) && Ran(limits, env, Past([], []), posts, 2, false)
    ensures |posts| == 2 && !posts[0].Ok() && !posts[1].Ok() && AllAllowed(limits, posts)
    ensures Window(limits, posts[0]) == [] && Breaks(Window(limits, posts[0]), 1, limits.txFailRate)
    ensures !NoFailureLost(limits, posts[0], posts[1])
  {
    limits := Limits(1500.0, 5, 0.2, 0.5, 5);
    env := (n: nat) => SlowFailure(n);
    var m1, m2 := SlowFailure(1), SlowFailure(2);
    var p1 := Post(1, Single(0, 0), Configured(0), [0], Live, m1, [], []);
    var p2 := Post(2, Single(1, 0), Configured(0), [0], Live, m2, [Sample(400.0, 1.0)], [Sample(400.0, false)]);
    posts := [p1, p2];
    forall n: nat ensures InOrder(env, n) {}
    SlowRun(limits, env, p1, p2);
    assert AllowedAt(limits, posts, 0) && AllowedAt(limits, posts, 1);
    assert !FailureKeptAt(limits, p1, p2, 0);
  }

  lemma SlowFirst(limits: Limits, env: nat -> Moment, p: Post)
    requires limits == Limits(1500.0, 5, 0.2, 0.5, 5) && env(1) == SlowFailure(1)
    requires p.at == 1 && p.moment == env(1) && p.rpc == [] && p.tx == [] && p.mode == Live
    ensures var start, next := Past([], []), Past([Sample(400.0, 1.0)], [Sample(400.0, false)]);
            Ran(limits, env, start, [p], 1, false) && After(start, [p]) == next
    ensures Allowed(limits, p) && Window(limits, p) == []
  {
    var start := Past([], []);
    RanNothing(limits, env, start);
    AfterNothing(start);
    ReadyOnOldSamples(limits, start, env(1));
    RanPost(limits, env, start, [], 0, p);
    AfterSnoc(start, [], p);
    assert [] + [p] == [p];
  }

  lemma SlowRun(limits: Limits, env: nat -> Moment, p1: Post, p2: Post)
    requires limits == Limits(1500.0, 5, 0.2, 0.5, 5) && env(1) == SlowFailure(1) && env(2) == SlowFailure(2)
    requires p1.at == 1 && p1.moment == env(1) && p1.rpc == [] && p1.tx == [] && p1.mode == Live
    requires p2.at == 2 && p2.moment == env(2) && p2.rpc == [Sample(400.0, 1.0)] && p2.tx == [Sample(400.0, false)]
    requires p2.mode == Live
    ensures Ran(limits, env, Past([], []), [p1, p2], 2, false)
    ensures Allowed(limits, p1) && Allowed(limits, p2) && Window(limits, p1) == []
  {
    SlowFirst(limits, env, p1);
    ReadyOnOldSamples(limits, Past(p2.rpc, p2.tx), env(2));
    RanPost(limits, env, Past([], []), [p1], 1, p2);
    assert [p1] + [p2] == [p1, p2];
  }
}
