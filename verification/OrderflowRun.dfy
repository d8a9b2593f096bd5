/** Which attempts of a submission post: exactly those whose gate the operator file, the health rules
    and the guard leave open at that attempt. */
module OrderflowRun {
  import opened BotStates
  import opened Numbers
  import opened SampleWindows
  import opened RuntimeInvariant
  import opened OrderflowTrace

  /** The latency sample a post leaves: none if the request raised. */
  function Latency(p: Post): seq<Sample<real>>
  {
    if p.moment.reply.Raised? then [] else [Sample(p.moment.latencyAt, MaxReal(0.0, p.moment.latencyMs))]
  }

  function Latencies(posts: seq<Post>): (r: seq<Sample<real>>)
  {
    if posts == [] then [] else Latencies(posts[..|posts| - 1]) + Latency(posts[|posts| - 1])
  }

  /** The histories after these posts. */
  function After(past: Past, posts: seq<Post>): Past
  {
    Past(past.rpc + Latencies(posts), past.tx + Results(posts))
  }

  lemma AfterSnoc(past: Past, posts: seq<Post>, p: Post)
    ensures After(past, posts + [p]) == Past(After(past, posts).rpc + Latency(p), After(past, posts).tx + [p.Result()])
  {
    assert (posts + [p])[..|posts|] == posts;
    assert Results(posts + [p]) == Results(posts) + [p.Result()];
    Associative(past.rpc, Latencies(posts), Latency(p));
    Associative(past.tx, Results(posts), [p.Result()]);
  }

  /** The health rules on these histories, at this moment. */
  function VerdictOn(limits: Limits, now: Past, m: Moment): Verdict
  {
    Decide(limits, Recent(now.rpc), Recent(now.tx), m.operator, m.drawdown, m.gateAt)
  }

  /** The posts of earlier attempts than the n-th. */
  function Prior(posts: seq<Post>, n: nat): (r: seq<Post>)
  {
    if posts == [] || posts[|posts| - 1].at < n then posts else Prior(posts[..|posts| - 1], n)
  }

  /** The health rules ask for READY at the gate of the n-th attempt. */
  predicate ReadyAt(limits: Limits, env: nat -> Moment, past: Past, posts: seq<Post>, n: nat)
  {
    VerdictOn(limits, After(past, Prior(posts, n)), env(n)).state == READY
  }

  predicate GuardOpenAt(env: nat -> Moment, n: nat)
  {
    !GuardBlocks(env(n).guard, READY)
  }

  ghost predicate PostedAt(posts: seq<Post>, n: nat)
  {
    exists i :: 0 <= i < |posts| && MadeAt(posts, i, n)
  }

  ghost predicate MadeAt(posts: seq<Post>, i: nat, n: nat)
    requires i < |posts|
  {
    posts[i].at == n
  }

  /** The i-th post met the moment of its attempt and the histories that the posts before it left. */
  ghost predicate PostFrom(env: nat -> Moment, past: Past, posts: seq<Post>, i: nat, attempts: nat)
    requires i < |posts|
  {
    var p := posts[i];
    && 1 <= p.at <= attempts && p.moment == env(p.at) && p.mode == Live
    && Past(p.rpc, p.tx) == After(past, posts[..i])
    && (0 < i ==> posts[i - 1].at < p.at)
  }

  /** The n-th attempt posts if and only if its gate is READY and the guard is open; and its gate is
      READY unless it is the attempt that stops the submission. */
  ghost predicate TriedAt(limits: Limits, env: nat -> Moment, past: Past, posts: seq<Post>, n: nat, stop: nat)
  {
    && (ReadyAt(limits, env, past, posts, n) <==> n != stop)
    && (PostedAt(posts, n) <==> ReadyAt(limits, env, past, posts, n) && GuardOpenAt(env, n))
  }

  /** A submission of this many attempts, the last of which the operator gate stopped if `blocked`. */
  ghost predicate Ran(limits: Limits, env: nat -> Moment, past: Past, posts: seq<Post>, attempts: nat, blocked: bool)
  {
    && (blocked ==> 0 < attempts)
    && (forall i :: 0 <= i < |posts| ==> PostFrom(env, past, posts, i, attempts))
    && var stop := if blocked then attempts else 0;
       forall n: nat :: 1 <= n <= attempts ==> TriedAt(limits, env, past, posts, n, stop)
  }

  lemma RanNothing(limits: Limits, env: nat -> Moment, past: Past)
    ensures Ran(limits, env, past, [], 0, false)
  {
  }

  /** Attempts are made in increasing order. */
  lemma {:induction false} AtsIncrease(env: nat -> Moment, past: Past, posts: seq<Post>, attempts: nat, i: nat, j: nat)
    requires forall k :: 0 <= k < |posts| ==> PostFrom(env, past, posts, k, attempts)
    requires i < j < |posts|
    ensures posts[i].at < posts[j].at
  {
    assert PostFrom(env, past, posts, j, attempts);
    if i < j - 1 { AtsIncrease(env, past, posts, attempts, i, j - 1); }
  }

  lemma PriorAll(posts: seq<Post>, n: nat)
    requires posts != [] ==> posts[|posts| - 1].at < n
    ensures Prior(posts, n) == posts
  {
  }

  lemma PriorSnoc(posts: seq<Post>, p: Post, n: nat)
    requires n <= p.at
    ensures Prior(posts + [p], n) == Prior(posts, n)
  {
    assert (posts + [p])[..|posts|] == posts;
  }

  lemma PostedSnoc(posts: seq<Post>, p: Post, n: nat)
    ensures PostedAt(posts + [p], n) <==> PostedAt(posts, n) || p.at == n
  {
    if PostedAt(posts, n) {
      var i :| 0 <= i < |posts| && MadeAt(posts, i, n);
      assert MadeAt(posts + [p], i, n);
    }
    if p.at == n { assert MadeAt(posts + [p], |posts|, n); }
    if PostedAt(posts + [p], n) {
      var i :| 0 <= i < |posts + [p]| && MadeAt(posts + [p], i, n);
      if i < |posts| { assert MadeAt(posts, i, n); }
    }
  }

  lemma LaterNotPosted(limits: Limits, env: nat -> Moment, past: Past, posts: seq<Post>, attempts: nat, blocked: bool)
    requires Ran(limits, env, past, posts, attempts, blocked)
    ensures !PostedAt(posts, attempts + 1) && Prior(posts, attempts + 1) == posts
  {
    var next := attempts + 1;
    forall i | 0 <= i < |posts| ensures !MadeAt(posts, i, next) {
      assert PostFrom(env, past, posts, i, attempts);
    }
    if posts != [] { assert PostFrom(env, past, posts, |posts| - 1, attempts); }
    PriorAll(posts, next);
  }

  /** One more attempt that does not post. */
  lemma RanQuiet(limits: Limits, env: nat -> Moment, past: Past, posts: seq<Post>, m: nat)
    requires Ran(limits, env, past, posts, m, false)
    requires var ready := VerdictOn(limits, After(past, posts), env(m + 1)).state == READY;
             !(ready && GuardOpenAt(env, m + 1))
    ensures Ran(limits, env, past, posts, m + 1, VerdictOn(limits, After(past, posts), env(m + 1)).state != READY)
  {
    LaterNotPosted(limits, env, past, posts, m, false);
    var blocked := VerdictOn(limits, After(past, posts), env(m + 1)).state != READY;
    var next := m + 1;
    forall i | 0 <= i < |posts| ensures PostFrom(env, past, posts, i, next) {
      assert PostFrom(env, past, posts, i, m);
    }
    var stop := if blocked then m + 1 else 0;
    forall n: nat | 1 <= n <= m + 1 ensures TriedAt(limits, env, past, posts, n, stop) {
      if n <= m { assert TriedAt(limits, env, past, posts, n, 0); }
    }
  }

  /** One more attempt that posts. */
  lemma RanPost(limits: Limits, env: nat -> Moment, past: Past, posts: seq<Post>, m: nat, p: Post)
    requires Ran(limits, env, past, posts, m, false)
    requires p.at == m + 1 && p.moment == env(m + 1) && p.mode == Live && Past(p.rpc, p.tx) == After(past, posts)
    requires VerdictOn(limits, After(past, posts), env(m + 1)).state == READY && GuardOpenAt(env, m + 1)
    ensures Ran(limits, env, past, posts + [p], m + 1, false)
  {
    LaterNotPosted(limits, env, past, posts, m, false);
    var more, next := posts + [p], m + 1;
    forall i | 0 <= i < |more| ensures PostFrom(env, past, more, i, next) {
      assert more[..i] == posts[..i];
      if i < |posts| { assert PostFrom(env, past, posts, i, m); } else { assert posts[..i] == posts; }
      if 0 < i { assert PostFrom(env, past, posts, i - 1, m); }
    }
    forall n: nat | 1 <= n <= m + 1 ensures TriedAt(limits, env, past, more, n, 0) {
      PriorSnoc(posts, p, n);
      PostedSnoc(posts, p, n);
      if n <= m { assert TriedAt(limits, env, past, posts, n, 0); }
    }
  }

  /** A submission before its n-th attempt, at this clock, with the histories `now`; or one that was
      stopped in the attempt before. */
  ghost predicate Underway(limits: Limits, env: nat -> Moment, n: nat, past: Past, posts: seq<Post>, blocked: bool,
                           now: Past, clock: real)
  {
    0 < n && Ran(limits, env, past, posts, n - 1, blocked) && now == After(past, posts) && clock <= env(n).gateAt
  }

  lemma UnderwayStarts(limits: Limits, env: nat -> Moment, past: Past, clock: real)
    requires clock <= env(1).gateAt
    ensures Underway(limits, env, 1, past, [], false, past, clock)
  {
    AfterNothing(past);
    RanNothing(limits, env, past);
  }

  lemma AfterNothing(past: Past)
    ensures After(past, []) == past
  {
    assert past.rpc + Latencies([]) == past.rpc && past.tx + Results([]) == past.tx;
  }

  lemma UnderwayQuiet(limits: Limits, env: nat -> Moment, n: nat, past: Past, posts: seq<Post>, now: Past, clock: real,
                      clock': real)
    requires Underway(limits, env, n, past, posts, false, now, clock) && InOrder(env, n) && clock' <= env(n).resultAt
    requires var ready := VerdictOn(limits, now, env(n)).state == READY; !(ready && GuardOpenAt(env, n))
    ensures Underway(limits, env, n + 1, past, posts, VerdictOn(limits, now, env(n)).state != READY, now, clock')
  {
    RanQuiet(limits, env, past, posts, n - 1);
  }

  lemma UnderwayPost(limits: Limits, env: nat -> Moment, n: nat, past: Past, posts: seq<Post>, p: Post,
                     now: Past, now': Past, clock: real, clock': real)
    requires Underway(limits, env, n, past, posts, false, now, clock) && InOrder(env, n) && clock' <= env(n).resultAt
    requires VerdictOn(limits, now, env(n)).state == READY && GuardOpenAt(env, n)
    requires p.at == n && p.moment == env(n) && p.mode == Live && Past(p.rpc, p.tx) == now
    requires now' == Past(now.rpc + Latency(p), now.tx + [p.Result()])
    ensures Underway(limits, env, n + 1, past, posts + [p], false, now', clock')
  {
    RanPost(limits, env, past, posts, n - 1, p);
    AfterSnoc(past, posts, p);
  }

  // What every run keeps

  /** An attempt whose gate is not READY, or whose guard blocks, makes no post; any other does. */
  lemma PostsExactlyIff(limits: Limits, env: nat -> Moment, past: Past, posts: seq<Post>, attempts: nat, blocked: bool,
                        n: nat)
    requires Ran(limits, env, past, posts, attempts, blocked) && 1 <= n <= attempts
    ensures PostedAt(posts, n) <==> ReadyAt(limits, env, past, posts, n) && GuardOpenAt(env, n)
  {
    assert TriedAt(limits, env, past, posts, n, if blocked then attempts else 0);
  }

  lemma {:induction false} PriorToPost(env: nat -> Moment, past: Past, posts: seq<Post>, attempts: nat, i: nat)
    requires forall k :: 0 <= k < |posts| ==> PostFrom(env, past, posts, k, attempts)
    requires i < |posts|
    ensures Prior(posts, posts[i].at) == posts[..i]
  {
    var k := |posts| - 1;
    if i == k {
      if 0 < k { assert PostFrom(env, past, posts, k, attempts); }
    } else {
      AtsIncrease(env, past, posts, attempts, i, k);
      var rest := posts[..k];
      forall j | 0 <= j < |rest| ensures PostFrom(env, past, rest, j, attempts) {
        assert PostFrom(env, past, posts, j, attempts) && rest[..j] == posts[..j];
      }
      PriorToPost(env, past, rest, attempts, i);
      assert rest[..i] == posts[..i];
    }
  }

  /** Every post of a run was allowed. */
  lemma RanAllowed(limits: Limits, env: nat -> Moment, past: Past, posts: seq<Post>, attempts: nat, blocked: bool)
    requires Ran(limits, env, past, posts, attempts, blocked)
    ensures AllAllowed(limits, posts)
  {
    forall i | 0 <= i < |posts| ensures AllowedAt(limits, posts, i) {
      var n := posts[i].at;
      assert PostFrom(env, past, posts, i, attempts) && MadeAt(posts, i, n);
      PostsExactlyIff(limits, env, past, posts, attempts, blocked, n);
      PriorToPost(env, past, posts, attempts, i);
    }
  }

  lemma {:induction false} EarlierMoment(env: nat -> Moment, clock: real, m: nat, n: nat)
    requires TimelyFrom(env, clock) && m < n
    ensures env(m).resultAt <= env(n).gateAt
  {
    assert InOrder(env, n - 1);
    if m < n - 1 { EarlierMoment(env, clock, m, n - 1); }
  }

  /** ... and saw the results of all posts before it. */
  lemma RanFed(limits: Limits, env: nat -> Moment, clock: real, past: Past, posts: seq<Post>, attempts: nat,
               blocked: bool)
    requires Ran(limits, env, past, posts, attempts, blocked) && TimelyFrom(env, clock)
    ensures Fed(posts, past.tx, After(past, posts).tx)
  {
    forall i | 0 <= i < |posts| ensures FedAt(posts, past.tx, i) {
      assert PostFrom(env, past, posts, i, attempts) && InOrder(env, posts[i].at);
      assert Results(posts[..i]) == Results(posts)[..i];
      forall j | 0 <= j < i ensures ByAt(posts[..i], j, posts[i].moment.gateAt) {
        assert PostFrom(env, past, posts, j, attempts);
        AtsIncrease(env, past, posts, attempts, j, i);
        EarlierMoment(env, clock, posts[j].at, posts[i].at);
      }
    }
  }

  /** No attempt gets past the gate while the operator does not trade or the kill switch is on. */
  ghost predicate StoppedAt(env: nat -> Moment, n: nat)
  {
    env(n).operator.killSwitch || !env(n).operator.trading || GuardBlocks(env(n).guard, READY)
  }

  lemma NoPostWhileStopped(limits: Limits, env: nat -> Moment, past: Past, posts: seq<Post>, attempts: nat,
                           blocked: bool, n: nat)
    requires Ran(limits, env, past, posts, attempts, blocked) && StoppedAt(env, n)
    ensures !PostedAt(posts, n)
  {
    if PostedAt(posts, n) {
      var i :| 0 <= i < |posts| && MadeAt(posts, i, n);
      assert PostFrom(env, past, posts, i, attempts);
      PostsExactlyIff(limits, env, past, posts, attempts, blocked, n);
    }
  }

  ghost predicate StoppedFrom(env: nat -> Moment, first: nat)
  {
    forall n: nat :: first <= n ==> StoppedAt(env, n)
  }

  /** From the moment the kill switch is on, the operator stops trading or the guard blocks, for as long
      as one of them holds, no post is made; in particular none at all if that is from the start. */
  lemma StopIsFinal(limits: Limits, env: nat -> Moment, past: Past, posts: seq<Post>, attempts: nat, blocked: bool,
                    first: nat)
    requires Ran(limits, env, past, posts, attempts, blocked) && StoppedFrom(env, first)
    ensures forall i :: 0 <= i < |posts| ==> posts[i].at < first
    ensures first <= 1 ==> posts == []
  {
    forall i | 0 <= i < |posts| ensures posts[i].at < first {
      assert MadeAt(posts, i, posts[i].at);
      if first <= posts[i].at {
        assert StoppedAt(env, posts[i].at);
        NoPostWhileStopped(limits, env, past, posts, attempts, blocked, posts[i].at);
      }
    }
    if posts != [] { assert PostFrom(env, past, posts, 0, attempts); }
  }

  ghost predicate AllOpen(env: nat -> Moment)
  {
    forall n: nat :: GuardOpenAt(env, n)
  }

  /** With the guard open, every attempt posts, but for one that the operator gate stops. */
  lemma EveryAttemptPosts(limits: Limits, env: nat -> Moment, past: Past, posts: seq<Post>, attempts: nat,
                          blocked: bool)
    requires Ran(limits, env, past, posts, attempts, blocked) && AllOpen(env)
    ensures |posts| + (if blocked then 1 else 0) == attempts && forall i :: 0 <= i < |posts| ==> posts[i].at <= |posts|
  {
    var made := if blocked then attempts - 1 else attempts;
    forall n: nat | 1 <= n <= attempts ensures PostedAt(posts, n) <==> n <= made {
      assert TriedAt(limits, env, past, posts, n, if blocked then attempts else 0) && GuardOpenAt(env, n);
    }
    forall i | 0 <= i < |posts| ensures posts[i].at <= made {
      assert PostFrom(env, past, posts, i, attempts) && MadeAt(posts, i, posts[i].at) && PostedAt(posts, posts[i].at);
    }
    var ats := seq(|posts|, i requires 0 <= i < |posts| => posts[i].at);
    forall i: nat, j: nat | i < j < |ats| ensures Lower(ats, i, j) {
      AtsIncrease(env, past, posts, attempts, i, j);
    }
    forall i: nat | i < |ats| ensures 1 <= ats[i] <= made {
      assert PostFrom(env, past, posts, i, attempts);
    }
    forall n: nat | 1 <= n <= made ensures n in ats {
      assert PostedAt(posts, n);
      var i :| 0 <= i < |posts| && MadeAt(posts, i, n);
      assert ats[i] == n;
    }
    CountUp(ats, made);
  }

  /** ... so the i-th post was made in attempt i + 1. */
  lemma {:induction false} PostIsAttempt(limits: Limits, env: nat -> Moment, past: Past, posts: seq<Post>,
                                         attempts: nat, blocked: bool, i: nat)
    requires Ran(limits, env, past, posts, attempts, blocked) && AllOpen(env) && i < |posts|
    ensures posts[i].at == i + 1
    decreases |posts| - i
  {
    AtLeastPlace(env, past, posts, attempts, i);
    if i + 1 < |posts| {
      PostIsAttempt(limits, env, past, posts, attempts, blocked, i + 1);
      AtsIncrease(env, past, posts, attempts, i, i + 1);
    } else {
      EveryAttemptPosts(limits, env, past, posts, attempts, blocked);
    }
  }

  ghost predicate Lower(s: seq<nat>, i: nat, j: nat)
    requires i < |s| && j < |s|
  {
    s[i] < s[j]
  }

  lemma LastIsGreatest(s: seq<nat>, i: nat)
    requires i < |s| && forall i: nat, j: nat :: i < j < |s| ==> Lower(s, i, j)
    ensures s[i] <= s[|s| - 1]
  {
    if i < |s| - 1 { assert Lower(s, i, |s| - 1); }
  }

  /** An increasing list of exactly the numbers from 1 to n has n elements. */
  lemma {:induction false} CountUp(s: seq<nat>, n: nat)
    requires forall i: nat, j: nat :: i < j < |s| ==> Lower(s, i, j)
    requires forall i: nat :: i < |s| ==> 1 <= s[i] <= n
    requires forall x: nat :: 1 <= x <= n ==> x in s
    ensures |s| == n
  {
    if s == [] {
      assert 0 < n ==> 1 in s;
    } else {
      var k := |s| - 1;
      var rest := s[..k];
      assert 1 <= s[k] <= n && n in s;
      var i: nat :| i < |s| && s[i] == n;
      LastIsGreatest(s, i);
      forall i: nat, j: nat | i < j < |rest| ensures Lower(rest, i, j) { assert Lower(s, i, j); }
      forall i: nat | i < |rest| ensures 1 <= rest[i] <= n - 1 { assert Lower(s, i, k); }
      forall x: nat | 1 <= x <= n - 1 ensures x in rest {
        assert x in s;
        var j: nat :| j < |s| && s[j] == x;
        assert rest[j] == x;
      }
      CountUp(rest, n - 1);
    }
  }

  /** There are at most as many posts as attempts. */
  lemma {:induction false} AtLeastPlace(env: nat -> Moment, past: Past, posts: seq<Post>, attempts: nat, i: nat)
    requires forall k :: 0 <= k < |posts| ==> PostFrom(env, past, posts, k, attempts)
    requires i < |posts|
    ensures i < posts[i].at
  {
    assert PostFrom(env, past, posts, i, attempts);
    if 0 < i { AtLeastPlace(env, past, posts, attempts, i - 1); }
  }

  lemma PostsWithinAttempts(limits: Limits, env: nat -> Moment, past: Past, posts: seq<Post>, attempts: nat,
                            blocked: bool)
    requires Ran(limits, env, past, posts, attempts, blocked)
    ensures |posts| <= attempts
  {
    if posts != [] {
      AtLeastPlace(env, past, posts, attempts, |posts| - 1);
      assert PostFrom(env, past, posts, |posts| - 1, attempts);
    }
  }

  /** Samples older than every window leave the verdict to the operator and the drawdown. */
  lemma ReadyOnOldSamples(limits: Limits, now: Past, m: Moment)
    requires !m.operator.killSwitch && m.operator.trading && m.drawdown <= limits.drawdown
    requires forall i :: 0 <= i < |now.rpc| ==> now.rpc[i].ts < m.gateAt - Seconds(limits.rpcWindowMin)
    requires forall i :: 0 <= i < |now.tx| ==> now.tx[i].ts < m.gateAt - Seconds(limits.txFailWindowMin)
    ensures VerdictOn(limits, now, m).state == READY
  {
    WindowOfOld(Recent(now.rpc), m.gateAt - Seconds(limits.rpcWindowMin));
    WindowOfOld(Recent(now.tx), m.gateAt - Seconds(limits.txFailWindowMin));
  }
}
