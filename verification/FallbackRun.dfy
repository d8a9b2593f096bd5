/** When a successful bundle submission has sent every transaction: over all runs, whatever the
    histories, the operator and the network did. */
module FallbackRun {
  import opened BotStates
  import opened SampleWindows
  import opened RuntimeInvariant
  import opened OrderflowTrace
  import opened OrderflowRun
  import opened BundleShape

  /** What a submission starts from: the rules, the sample histories and the clock. */
  datatype Context = Context(limits: Limits, past: Past, clock: real)

  /** What a successful submission leaves behind, with or without a public fallback. */
  ghost predicate Finishes(b: Bundle, fallback: bool, posts: seq<Post>)
    requires b.txs != []
  {
    && Shape(b, posts) && FinishedBy(posts, |b.txs|) && (!fallback ==> Before(posts, Public))
    && var p := posts[|posts| - 1];
       p.stage.Rpc? ==> RoundComplete(posts, p.stage.round, |b.txs|)
  }

  /** A run that succeeded with its last attempt: what the submission's contract says of it. */
  ghost predicate FinishedRun(c: Context, b: Bundle, fallback: bool, env: nat -> Moment, posts: seq<Post>,
                              attempts: nat)
    requires b.txs != []
  {
    && TimelyFrom(env, c.clock) && VerdictOn(c.limits, c.past, env(0)).state == READY
    && Ran(c.limits, env, c.past, posts, attempts, false)
    && Finishes(b, fallback, posts) && posts[|posts| - 1].at == attempts
  }

  lemma SuccessSends(c: Context, b: Bundle, fallback: bool, env: nat -> Moment, posts: seq<Post>, attempts: nat)
    requires b.txs != [] && FinishedRun(c, b, fallback, env, posts, attempts)
    ensures |b.txs| == 1 || !fallback ==> AllSent(b, posts)
  {
    FinishedSendsAllIff(b, posts);
    if !fallback { assert BeforeAt(posts, |posts| - 1, Public); }
  }

  /** Whatever a submission starts from, each run that succeeds has sent every transaction if and only
      if the bundle has a single one or there is no public fallback, which a caller can tell before. */
  lemma SuccessSendsAllIff(c: Context, b: Bundle, fallback: bool)
    requires b.txs != []
    ensures (forall env, posts, attempts :: FinishedRun(c, b, fallback, env, posts, attempts) ==> AllSent(b, posts))
            <==> |b.txs| == 1 || !fallback
  {
    if |b.txs| == 1 || !fallback {
      forall env, posts, attempts | FinishedRun(c, b, fallback, env, posts, attempts) ensures AllSent(b, posts) {
        SuccessSends(c, b, fallback, env, posts, attempts);
      }
    } else {
      var env, posts := FallbackAlone(c, b);
      assert FinishedRun(c, b, fallback, env, posts, Earliest(b, Public)) && !AllSent(b, posts);
    }
  }

  /** What every submission keeps, whatever it sends. */
  lemma SubmissionKeeps(c: Context, env: nat -> Moment, posts: seq<Post>, attempts: nat, blocked: bool)
    requires TimelyFrom(env, c.clock) && Ran(c.limits, env, c.past, posts, attempts, blocked)
    ensures AllAllowed(c.limits, posts) && Fed(posts, c.past.tx, After(c.past, posts).tx) && |posts| <= attempts
    ensures StoppedFrom(env, 1) ==> posts == []
  {
    RanAllowed(c.limits, env, c.past, posts, attempts, blocked);
    RanFed(c.limits, env, c.clock, c.past, posts, attempts, blocked);
    PostsWithinAttempts(c.limits, env, c.past, posts, attempts, blocked);
    if StoppedFrom(env, 1) { StopIsFinal(c.limits, env, c.past, posts, attempts, blocked, 1); }
  }

  /** With the guard open, the first posts are those to the builders, each once, in order, with the whole
      bundle, and no later post goes to one. */
  lemma BuildersComeFirst(c: Context, b: Bundle, env: nat -> Moment, posts: seq<Post>, attempts: nat, blocked: bool,
                          k: nat)
    requires Shape(b, posts) && Ran(c.limits, env, c.past, posts, attempts, blocked) && AllOpen(env) && k < |posts|
    ensures if k < |b.builders| then
              posts[k].stage == Builder(k) && posts[k].endpoint == b.builders[k] && posts[k].payload == b.txs
            else !posts[k].stage.Builder?
  {
    PostIsAttempt(c.limits, env, c.past, posts, attempts, blocked, k);
    assert ShapeAt(b, posts, k) && TimedAt(b, posts[..k], posts[k].at, posts[k].stage);
  }

  // The failing run

  /** The guard is open at attempt `only` and at no other, the network accepts there, and the health
      rules have nothing to object on these histories. */
  ghost predicate LonelyAt(c: Context, env: nat -> Moment, only: nat, n: nat)
  {
    && VerdictOn(c.limits, c.past, env(n)).state == READY
    && (GuardOpenAt(env, n) <==> n == only) && (n == only ==> env(n).reply.Accepted?)
  }

  ghost predicate LonelyEnv(c: Context, env: nat -> Moment, only: nat)
  {
    TimelyFrom(env, c.clock) && forall n: nat :: LonelyAt(c, env, only, n)
  }

  /** Such moments can follow any histories. */
  lemma SomeLonelyEnv(c: Context, only: nat) returns (env: nat -> Moment)
    ensures LonelyEnv(c, env, only)
  {
    var wait := Later(Seconds(c.limits.rpcWindowMin), Seconds(c.limits.txFailWindowMin));
    var t := Later(c.clock, Later(Newest(c.past.rpc), Newest(c.past.tx)) + wait + 1.0);
    env := (n: nat) =>
      Moment(OperatorState(false, true), c.limits.drawdown, Guard(n != only, false, {}), t, t, 0.0, t, Accepted(None));
    forall n: nat ensures LonelyAt(c, env, only, n) && InOrder(env, n) {
      ReadyOnOldSamples(c.limits, c.past, env(n));
    }
  }

  function Later(a: real, b: real): real { if a < b then b else a }

  function Newest<T>(s: seq<Sample<T>>): (t: real)
    ensures forall i :: 0 <= i < |s| ==> s[i].ts <= t
  {
    if s == [] then 0.0 else Later(s[|s| - 1].ts, Newest(s[..|s| - 1]))
  }

  /** Attempts that the guard blocks leave nothing. */
  lemma {:induction false} QuietRun(c: Context, env: nat -> Moment, only: nat, m: nat)
    requires LonelyEnv(c, env, only) && m < only
    ensures Ran(c.limits, env, c.past, [], m, false)
  {
    if m == 0 {
      RanNothing(c.limits, env, c.past);
    } else {
      QuietRun(c, env, only, m - 1);
      AfterNothing(c.past);
      assert LonelyAt(c, env, only, m);
      RanQuiet(c.limits, env, c.past, [], m - 1);
    }
  }

  /** The failing run: no private attempt got past the guard, and the public endpoint took the first
      transaction of two or more. */
  lemma FallbackAlone(c: Context, b: Bundle) returns (env: nat -> Moment, posts: seq<Post>)
    requires 2 <= |b.txs|
    ensures FinishedRun(c, b, true, env, posts, Earliest(b, Public)) && !AllSent(b, posts)
  {
    var n := Earliest(b, Public);
    env := SomeLonelyEnv(c, n);
    QuietRun(c, env, n, n - 1);
    AfterNothing(c.past);
    var p := Post(n, Public, PublicFallback, [b.txs[0]], Live, env(n), c.past.rpc, c.past.tx);
    posts := [p];
    assert LonelyAt(c, env, n, 0) && LonelyAt(c, env, n, n);
    RanPost(c.limits, env, c.past, [], n - 1, p);
    assert [] + [p] == posts && posts[..0] == [];
    TurnsGrow(b);
    assert ShapeAt(b, posts, 0);
    FinishedSendsAllIff(b, posts);
  }

  lemma TurnsGrow(b: Bundle)
    requires b.txs != []
    ensures Earliest(b, Public) <= Latest(b, Public)
  {
    assert Turns(1, |b.rpcs|) == |b.rpcs| + Turns(0, |b.rpcs|);
    TurnsMonotone(1, |b.txs|, |b.rpcs|, |b.rpcs|);
    TurnsMonotone(b.rounds, b.rounds, |b.rpcs|, Turns(|b.txs|, |b.rpcs|));
  }

  /** Private stages come before the attempt of the public one. */
  lemma PrivateIsEarlier(b: Bundle, p: Post)
    requires Fits(b, p) && !p.stage.Public?
    ensures Earliest(b, p.stage) < Earliest(b, Public)
  {
    if p.stage.Rpc? {
      TurnsMonotone(p.stage.round + 1, b.rounds, |b.rpcs|, |b.rpcs|);
      assert Turns(p.stage.round + 1, |b.rpcs|) == |b.rpcs| + Turns(p.stage.round, |b.rpcs|);
    }
  }

  /** With such moments, a submission posts nothing before the attempt at the public endpoint, is not
      stopped on the way, and posts there if it gets that far. */
  lemma OnlyPublicPost(c: Context, b: Bundle, env: nat -> Moment, posts: seq<Post>, attempts: nat, blocked: bool)
    requires Shape(b, posts) && Ran(c.limits, env, c.past, posts, attempts, blocked)
    requires LonelyEnv(c, env, Earliest(b, Public))
    ensures posts == [] ==> attempts < Earliest(b, Public) && !blocked
    ensures posts != [] ==>
            |posts| == 1 && posts[0].stage == Public && posts[0].moment == env(Earliest(b, Public)) && posts[0].Ok()
  {
    var only := Earliest(b, Public);
    forall i | 0 <= i < |posts| ensures posts[i].at == only {
      OnlyThen(c, env, posts, attempts, blocked, only, i);
    }
    if posts == [] {
      NotStopped(c, env, attempts, blocked, only);
    } else {
      assert PostFrom(env, c.past, posts, 0, attempts) && ShapeAt(b, posts, 0) && LonelyAt(c, env, only, only);
      if 1 < |posts| { AtsIncrease(env, c.past, posts, attempts, 0, 1); }
      assert TimedAt(b, posts[..0], posts[0].at, posts[0].stage);
      if !posts[0].stage.Public? { PrivateIsEarlier(b, posts[0]); }
    }
  }

  lemma OnlyThen(c: Context, env: nat -> Moment, posts: seq<Post>, attempts: nat, blocked: bool, only: nat, i: nat)
    requires Ran(c.limits, env, c.past, posts, attempts, blocked) && LonelyEnv(c, env, only) && i < |posts|
    ensures posts[i].at == only
  {
    assert PostFrom(env, c.past, posts, i, attempts) && MadeAt(posts, i, posts[i].at);
    PostsExactlyIff(c.limits, env, c.past, posts, attempts, blocked, posts[i].at);
    assert LonelyAt(c, env, only, posts[i].at);
  }

  lemma NotStopped(c: Context, env: nat -> Moment, attempts: nat, blocked: bool, only: nat)
    requires Ran(c.limits, env, c.past, [], attempts, blocked) && LonelyEnv(c, env, only) && 0 < only
    ensures attempts < only && !blocked
  {
    AfterNothing(c.past);
    var stop := if blocked then attempts else 0;
    assert LonelyAt(c, env, only, attempts) && LonelyAt(c, env, only, only);
    assert blocked ==> TriedAt(c.limits, env, c.past, [], attempts, stop);
    assert only <= attempts ==> TriedAt(c.limits, env, c.past, [], only, stop);
  }
}
