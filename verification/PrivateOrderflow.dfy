/** The private send path of bot/exec/orderflow.py: gates, one attempt, and the two submissions of
    PrivateOrderflowManager, against a network and an operator that may do anything. */
module PrivateOrderflow {
  import opened BotStates
  import opened Numbers
  import opened SampleWindows
  import opened RuntimeInvariant
  import opened OrderflowTrace
  import opened OrderflowRun
  import opened BundleShape
  import opened FallbackRun
  import opened FailureRows

  datatype Kind = RpcKind | Flashbots | BuilderKind | OtherKind

  datatype Endpoint = Endpoint(name: Name, kind: Kind)

  /** What one attempt reports back: `None` in the source is NotSent. */
  datatype Attempt = Sent(endpoint: Name, result: Option<Body>) | NotSent | BlockedByOperator

  datatype Outcome =
    | SentBy(endpoint: Name, result: Option<Body>, bundle: bool)
    | SentSequentially(endpoint: Name, summary: Body)
    | Blocked
    | Virtual(mode: Mode)
    | EmptyInput
    | AllFailed

  predicate TakesBundle(k: Kind) { k == Flashbots || k == BuilderKind }

  /** The raw transactions a request carries: the whole bundle to a builder, else the first one. */
  function Payload(ep: Endpoint, txs: seq<Tx>): seq<Tx>
    requires txs != []
  {
    if TakesBundle(ep.kind) then txs else [txs[0]]
  }

  class PrivateOrderflowManager {
    const endpoints: seq<Endpoint>
    const maxRetries: int
    const enablePublicFallback: bool
    const inv: RuntimeInvariants

    // The process-wide state that every gate overwrites
    var runtimeState: BotState

    // Every post ever made through this manager
    ghost var log: seq<Post>

    ghost predicate Valid()
      reads this, inv
    {
      endpoints != [] && inv.Valid() && AllAllowed(inv.limits, log)
    }

    constructor (endpoints: seq<Endpoint>, maxRetries: int, enablePublicFallback: bool, inv: RuntimeInvariants,
                 runtimeState: BotState)
      requires endpoints != [] && inv.Valid()
      ensures Valid() && log == []
      ensures this.endpoints == endpoints && this.maxRetries == maxRetries && this.inv == inv
      ensures this.enablePublicFallback == enablePublicFallback && this.runtimeState == runtimeState
    {
      this.endpoints, this.maxRetries, this.enablePublicFallback := endpoints, maxRetries, enablePublicFallback;
      this.inv, this.runtimeState, log := inv, runtimeState, [];
    }

    /** The sample histories so far. */
    ghost function Histories(): Past
      reads inv
    {
      Past(inv.rpcHistory, inv.txHistory)
    }

    ghost function VerdictAt(m: Moment): Verdict
      reads inv
    {
      VerdictOn(inv.limits, Histories(), m)
    }

    /** `_operator_gate`: asks the invariants for a state, makes it the process-wide one, and blocks
        unless it allows sending. */
    method OperatorGate(m: Moment) returns (blocked: bool)
      requires inv.Valid() && inv.clock <= m.gateAt
      modifies this`runtimeState, inv`rpcSamples, inv`txSamples, inv`clock
      ensures inv.Valid() && inv.clock == m.gateAt
      ensures runtimeState == VerdictAt(m).state
      ensures blocked <==> VerdictAt(m).state != READY
    {
      var v := inv.Evaluate(m.operator, m.drawdown, m.gateAt);
      if runtimeState != v.state { runtimeState := v.state; }
      blocked := !(v.state == READY || v.state == TRADING);
    }

    /** `_state_gate` */
    function StateGateBlocks(): bool
      reads this
    {
      !(runtimeState == READY || runtimeState == TRADING)
    }

    /** `_try_endpoint_once`. It posts exactly when the gate's verdict on the samples so far is READY
        and the guard is open; a post leaves one transaction sample, and whether it was accepted is
        what the caller hears. */
    method TryEndpointOnce(ep: Endpoint, txs: seq<Tx>, m: Moment, ghost at: nat, ghost stage: Stage, ghost mode: Mode)
      returns (r: Attempt, ghost posts: seq<Post>)
      requires inv.Valid() && txs != [] && Timely(m) && inv.clock <= m.gateAt && mode == Live
      modifies this`runtimeState, inv
      ensures inv.Valid() && inv.clock <= m.resultAt
      ensures old(VerdictAt(m).state) != READY <==> r == BlockedByOperator
      ensures posts ==
              if old(VerdictAt(m).state) != READY || GuardBlocks(m.guard, READY) then []
              else [Post(at, stage, ep.name, Payload(ep, txs), mode, m, old(inv.rpcHistory), old(inv.txHistory))]
      ensures if posts == [] then Histories() == old(Histories())
              else Histories() ==
                   Past(old(inv.rpcHistory) + Latency(posts[0]), old(inv.txHistory) + [posts[0].Result()])
      ensures posts == [] <==>
                || old(VerdictAt(m).state) != READY
                || (m.guard.enabled && (!m.guard.executionEnabled || READY !in m.guard.allowedStates))
      ensures posts != [] ==>
                && posts[0].payload == (if ep.kind == Flashbots || ep.kind == BuilderKind then txs else [txs[0]])
                && inv.txHistory == old(inv.txHistory) + [Sample(m.resultAt, m.reply.Accepted?)]
                && inv.rpcHistory == old(inv.rpcHistory) +
                     (if m.reply.Raised? then []
                      else [Sample(m.latencyAt, if m.latencyMs < 0.0 then 0.0 else m.latencyMs)])
      ensures r == if old(VerdictAt(m).state) != READY then BlockedByOperator
                   else if posts != [] && m.reply.Accepted? then Sent(ep.name, m.reply.result)
                   else NotSent
    {
      posts := [];
      var blocked := OperatorGate(m);
      if blocked { return BlockedByOperator, []; }
      if StateGateBlocks() { assert false; }
      if GuardBlocks(m.guard, runtimeState) { return NotSent, []; }
      ghost var p := Post(at, stage, ep.name, Payload(ep, txs), mode, m, inv.rpcHistory, inv.txHistory);
      posts := [p];
      match m.reply
      case Accepted(result) =>
        inv.ObserveRpcLatencyMs(m.latencyMs, m.latencyAt);
        inv.ObserveTxResult(true, m.resultAt);
        r := Sent(ep.name, result);
      case RpcError =>
        inv.ObserveRpcLatencyMs(m.latencyMs, m.latencyAt);
        inv.ObserveTxResult(false, m.resultAt);
        r := NotSent;
      case Transport =>
        inv.ObserveRpcLatencyMs(m.latencyMs, m.latencyAt);
        inv.ObserveTxResult(false, m.resultAt);
        r := NotSent;
      case Raised =>
        inv.ObserveTxResult(false, m.resultAt);
        r := NotSent;
    }

    /** A submission under way, before its n-th attempt: `posts` are its posts so far, made by exactly
        the attempts whose gate and guard were open; or one that the operator gate has stopped in the
        attempt before. */
    ghost predicate Going(env: nat -> Moment, n: nat, past: Past, posts: seq<Post>, blocked: bool)
      reads inv
    {
      inv.Valid() && Underway(inv.limits, env, n, past, posts, blocked, Histories(), inv.clock)
    }

    lemma GoingStarts(env: nat -> Moment)
      requires inv.Valid() && inv.clock <= env(1).gateAt
      ensures Going(env, 1, Histories(), [], false)
    {
      UnderwayStarts(inv.limits, env, Histories(), inv.clock);
    }

    /** One attempt of a submission, at the n-th moment. */
    method AttemptAt(ep: Endpoint, txs: seq<Tx>, env: nat -> Moment, n: nat, ghost stage: Stage,
                     ghost past: Past, ghost posts0: seq<Post>)
      returns (r: Attempt, ghost posts: seq<Post>)
      requires txs != [] && TimelyFrom(env, env(0).gateAt) && Going(env, n, past, posts0, false)
      modifies this`runtimeState, inv
      ensures Going(env, n + 1, past, posts, r == BlockedByOperator)
      ensures AtMostOneMore(posts0, posts, n, stage, ep.name, Payload(ep, txs))
      ensures posts != posts0 ==> posts[|posts| - 1].moment == env(n)
      ensures r.Sent? <==> posts != posts0 && LastOk(posts)
      ensures r.Sent? ==> r.endpoint == ep.name && Accepted(r.result) == env(n).reply
    {
      ghost var delta, now, clock := [], Histories(), inv.clock;
      assert InOrder(env, n);
      r, delta := TryEndpointOnce(ep, txs, env(n), n, stage, Live);
      posts := posts0 + delta;
      if delta != [] {
        UnderwayPost(inv.limits, env, n, past, posts0, delta[0], now, Histories(), clock, inv.clock);
      } else {
        assert posts == posts0;
        UnderwayQuiet(inv.limits, env, n, past, posts0, now, clock, inv.clock);
      }
    }

    /** What stands in front of both submissions: the operator gate, and the answer of a mode that is not
        live. */
    method Admit(mode: Mode, env: nat -> Moment) returns (o: Option<Outcome>)
      requires inv.Valid() && TimelyFrom(env, inv.clock)
      modifies this`runtimeState, inv
      ensures inv.Valid() && Histories() == old(Histories())
      ensures o == if old(VerdictAt(env(0)).state) != READY then Some(Blocked)
                   else if mode != Live then Some(Virtual(mode)) else None
      ensures o == None ==> Going(env, 1, old(Histories()), [], false)
    {
      assert InOrder(env, 0);
      var blocked := OperatorGate(env(0));
      if blocked { return Some(Blocked); }
      if mode != Live { return Some(Virtual(mode)); }
      GoingStarts(env);
      o := None;
    }

    /** `submit_private_tx`: rounds over all endpoints in order, until one accepts. */
    method SubmitPrivateTx(signedTx: Tx, mode: Mode, retriesPerEndpoint: Option<int>, env: nat -> Moment)
      returns (o: Outcome, attempts: nat, ghost posts: seq<Post>)
      requires Valid() && TimelyFrom(env, inv.clock)
      modifies this, inv
      ensures Valid() && log == old(log) + posts && Fed(posts, old(inv.txHistory), inv.txHistory)
      ensures old(VerdictAt(env(0)).state) != READY ==> o == Blocked && posts == []
      ensures old(VerdictAt(env(0)).state) == READY && mode != Live ==> o == Virtual(mode) && posts == []
      ensures o.Virtual? ==> mode != Live
      ensures SingleShape(Names(endpoints), signedTx, posts)
      ensures if o.Virtual? then posts == [] else Heard(o, posts)
      ensures var retries := if retriesPerEndpoint.Some? then retriesPerEndpoint.value else maxRetries;
              var most := Turns(Max(0, retries + 1), |endpoints|);
              |posts| <= attempts <= most && (o.AllFailed? ==> attempts == most)
      ensures Ran(inv.limits, env, old(Histories()), posts, attempts, o == Blocked && 0 < attempts)
      ensures o == Blocked ==> (0 < attempts <==> old(VerdictAt(env(0)).state) == READY)
      ensures StoppedFrom(env, 1) ==> posts == []
      ensures forall k :: FailuresWithin(inv.limits, posts, k)
    {
      ghost var c := Context(inv.limits, Histories(), inv.clock);
      posts, attempts := [], 0;
      assert log == log + [];
      RanNothing(c.limits, env, c.past);
      SubmissionKeeps(c, env, posts, 0, false);
      var gated := Admit(mode, env);
      if gated.Some? { return gated.value, 0, []; }
      var retries := if retriesPerEndpoint.Some? then retriesPerEndpoint.value else maxRetries;
      o, attempts, posts := RetryRounds(signedTx, retries, env, c.past);
      SubmissionKeeps(c, env, posts, attempts, o == Blocked);
      FailuresInSubmission(c.limits, Names(endpoints), signedTx, posts, c.past.tx);
      AllAllowedConcat(c.limits, log, posts);
      log := log + posts;
    }

    /** What a caller hears of a single transaction. */
    ghost predicate Heard(o: Outcome, posts: seq<Post>)
    {
      if LastOk(posts) then
        var p := posts[|posts| - 1]; o == SentBy(p.endpoint, p.moment.reply.result, false)
      else o.Blocked? || o.AllFailed?
    }

    /** The retry loop of `submit_private_tx`. */
    method RetryRounds(signedTx: Tx, retries: int, env: nat -> Moment, ghost past: Past)
      returns (o: Outcome, attempts: nat, ghost posts: seq<Post>)
      requires TimelyFrom(env, env(0).gateAt) && Going(env, 1, past, [], false)
      modifies this`runtimeState, inv
      ensures Going(env, attempts + 1, past, posts, o == Blocked)
      ensures SingleShape(Names(endpoints), signedTx, posts) && Heard(o, posts)
      ensures var most := Turns(Max(0, retries + 1), |endpoints|);
              attempts <= most && (o.AllFailed? ==> attempts == most)
    {
      posts, attempts := [], 0;
      ghost var rounds := Max(0, retries + 1);
      var round: nat := 0;
      while round < retries + 1
        invariant round <= rounds && Going(env, attempts + 1, past, posts, false)
        invariant SingleStanding(Names(endpoints), signedTx, posts, attempts + 1, round, 0)
      {
        TurnsMonotone(round + 1, rounds, |endpoints|, |endpoints|);
        o, attempts, posts := TryAll(signedTx, round, env, attempts, past, posts);
        if o != AllFailed { return; }
        round := round + 1;
      }
      o := AllFailed;
    }

    /** One round over all endpoints. */
    method TryAll(signedTx: Tx, round: nat, env: nat -> Moment, before: nat, ghost past: Past, ghost posts0: seq<Post>)
      returns (o: Outcome, attempts: nat, ghost posts: seq<Post>)
      requires TimelyFrom(env, env(0).gateAt) && Going(env, before + 1, past, posts0, false)
      requires SingleStanding(Names(endpoints), signedTx, posts0, before + 1, round, 0)
      modifies this`runtimeState, inv
      ensures Going(env, attempts + 1, past, posts, o == Blocked) && posts0 <= posts
      ensures SingleShape(Names(endpoints), signedTx, posts) && Heard(o, posts)
      ensures o == AllFailed ==> SingleStanding(Names(endpoints), signedTx, posts, attempts + 1, round + 1, 0)
      ensures attempts <= before + |endpoints|
    {
      posts, attempts := posts0, before;
      var e: nat := 0;
      while e < |endpoints|
        invariant e <= |endpoints| && attempts == before + e
        invariant Going(env, attempts + 1, past, posts, false) && posts0 <= posts
        invariant SingleStanding(Names(endpoints), signedTx, posts, attempts + 1, round, e)
      {
        o, attempts, posts := TryOne(signedTx, round, e, env, attempts, past, posts);
        e := e + 1;
        if o != AllFailed { return; }
      }
      SingleNextRound(Names(endpoints), signedTx, posts, attempts + 1, round);
      o := AllFailed;
    }

    /** One attempt of `submit_private_tx`. */
    method TryOne(signedTx: Tx, round: nat, e: nat, env: nat -> Moment, before: nat, ghost past: Past,
                  ghost posts0: seq<Post>)
      returns (o: Outcome, attempts: nat, ghost posts: seq<Post>)
      requires e < |endpoints| && TimelyFrom(env, env(0).gateAt) && Going(env, before + 1, past, posts0, false)
      requires SingleStanding(Names(endpoints), signedTx, posts0, before + 1, round, e)
      modifies this`runtimeState, inv
      ensures attempts == before + 1
      ensures Going(env, attempts + 1, past, posts, o == Blocked) && posts0 <= posts
      ensures SingleShape(Names(endpoints), signedTx, posts) && Heard(o, posts)
      ensures o == AllFailed ==> SingleStanding(Names(endpoints), signedTx, posts, attempts + 1, round, e + 1)
    {
      attempts := before + 1;
      var res;
      res, posts := AttemptAt(endpoints[e], [signedTx], env, attempts, Single(round, e), past, posts0);
      SingleStep(Names(endpoints), signedTx, posts0, posts, attempts, round, e);
      o := OutcomeOf(res);
    }

    /** The bundle as the stages of its submission see it. */
    ghost function BundleOf(rawTxs: seq<Tx>): Bundle
    {
      Bundle(rawTxs, Names(Builders(endpoints)), Names(Rpcs(endpoints)), Max(2, maxRetries + 1))
    }

    /** Which endpoints the bundle goes to: those of kind flashbots or builder as builders and those of
        kind rpc for the rounds, in configured order, none left out; and at least two rounds. */
    ghost predicate BundleFrom(rawTxs: seq<Tx>, b: Bundle)
    {
      && b.txs == rawTxs && b.rounds == (if maxRetries < 1 then 2 else maxRetries + 1)
      && (exists at :: PicksBuilders(endpoints, at, b.builders)) && (exists at :: PicksRpcs(endpoints, at, b.rpcs))
    }

    lemma BundleIsFrom(rawTxs: seq<Tx>)
      ensures BundleFrom(rawTxs, BundleOf(rawTxs))
      ensures exists at :: PicksBuilders(endpoints, at, BundleOf(rawTxs).builders)
    {
      var at := BuildersPicked(endpoints);
      var rpcAt := RpcsPicked(endpoints);
    }

    /** The first posts went to the endpoints of kind flashbots or builder, each once and in configured
        order, with the whole bundle, and no later post went to one as such. */
    ghost predicate BuilderTurns(rawTxs: seq<Tx>, posts: seq<Post>)
    {
      exists at, names ::
        PicksBuilders(endpoints, at, names) && forall k: nat :: k < |posts| ==> BuilderTurnAt(rawTxs, posts, at, k)
    }

    ghost predicate BuilderTurnAt(rawTxs: seq<Tx>, posts: seq<Post>, at: seq<int>, k: nat)
      requires k < |posts|
    {
      if k < |at| then
        && posts[k].stage == Builder(k) && posts[k].payload == rawTxs
        && 0 <= at[k] < |endpoints| && posts[k].endpoint == endpoints[at[k]].name
      else !posts[k].stage.Builder?
    }

    lemma TurnsOfBuilders(rawTxs: seq<Tx>, c: Context, env: nat -> Moment, posts: seq<Post>, attempts: nat,
                          blocked: bool)
      requires Shape(BundleOf(rawTxs), posts) && Ran(c.limits, env, c.past, posts, attempts, blocked) && AllOpen(env)
      ensures BuilderTurns(rawTxs, posts)
    {
      var at := BuildersPicked(endpoints);
      forall k: nat | k < |posts| ensures BuilderTurnAt(rawTxs, posts, at, k) {
        if k < |at| { assert PlaceOf(endpoints, at, BundleOf(rawTxs).builders, k); }
        BuildersComeFirst(c, BundleOf(rawTxs), env, posts, attempts, blocked, k);
      }
    }

    /** One attempt at the e-th builder. */
    method TryBuilder(rawTxs: seq<Tx>, e: nat, env: nat -> Moment, before: nat,
                      ghost past: Past, ghost posts0: seq<Post>)
      returns (r: Attempt, attempts: nat, ghost posts: seq<Post>)
      requires rawTxs != [] && e < |Builders(endpoints)| && TimelyFrom(env, env(0).gateAt)
      requires Going(env, before + 1, past, posts0, false)
      requires Standing(BundleOf(rawTxs), posts0, before + 1, Builder(e))
      modifies this`runtimeState, inv
      ensures attempts == before + 1
      ensures Going(env, attempts + 1, past, posts, r == BlockedByOperator)
      ensures if r == NotSent then Standing(BundleOf(rawTxs), posts, attempts + 1, Builder(e + 1))
              else Ended(BundleOf(rawTxs), posts, attempts + 1, r.Sent?)
      ensures r.Sent? ==> var p := posts[|posts| - 1]; p.stage.Builder? && r == Sent(p.endpoint, p.moment.reply.result)
    {
      attempts := before + 1;
      var ep := Builders(endpoints)[e];
      BuilderTakesBundle(endpoints, e);
      r, posts := AttemptAt(ep, rawTxs, env, attempts, Builder(e), past, posts0);
      BuilderStep(BundleOf(rawTxs), posts0, posts, attempts, e);
      if r == BlockedByOperator { BuildersStop(BundleOf(rawTxs), posts, attempts + 1, e + 1); }
    }

    /** The builder loop: the whole bundle to each builder once. */
    method TryBuilders(rawTxs: seq<Tx>, env: nat -> Moment, ghost past: Past)
      returns (r: Attempt, attempts: nat, ghost posts: seq<Post>)
      requires rawTxs != [] && TimelyFrom(env, env(0).gateAt) && Going(env, 1, past, [], false)
      modifies this`runtimeState, inv
      ensures Going(env, attempts + 1, past, posts, r == BlockedByOperator)
      ensures if r == NotSent then Standing(BundleOf(rawTxs), posts, attempts + 1, Rpc(0, 0, 0))
              else Ended(BundleOf(rawTxs), posts, attempts + 1, r.Sent?)
      ensures r.Sent? ==> var p := posts[|posts| - 1]; p.stage.Builder? && r == Sent(p.endpoint, p.moment.reply.result)
    {
      r, posts, attempts := NotSent, [], 0;
      StandingStarts(BundleOf(rawTxs));
      while attempts < |Builders(endpoints)|
        invariant r == NotSent && attempts <= |Builders(endpoints)| && Going(env, attempts + 1, past, posts, false)
        invariant Standing(BundleOf(rawTxs), posts, attempts + 1, Builder(attempts))
      {
        r, attempts, posts := TryBuilder(rawTxs, attempts, env, attempts, past, posts);
        if r != NotSent { break; }
      }
      if r == NotSent { BuildersDone(BundleOf(rawTxs), posts, attempts + 1); }
    }

    /** One attempt to send one transaction of one sequential round, to the e-th rpc endpoint. */
    method SendTo(rawTxs: seq<Tx>, round: nat, x: nat, e: nat, env: nat -> Moment, before: nat,
                  ghost past: Past, ghost posts0: seq<Post>)
      returns (r: Attempt, attempts: nat, ghost posts: seq<Post>)
      requires x < |rawTxs| && e < |Rpcs(endpoints)| && TimelyFrom(env, env(0).gateAt)
      requires Going(env, before + 1, past, posts0, false)
      requires Waiting(BundleOf(rawTxs), posts0, before + 1, round, x, e)
      modifies this`runtimeState, inv
      ensures attempts == before + 1
      ensures Going(env, attempts + 1, past, posts, r == BlockedByOperator)
      ensures r.Sent? ==> Took(BundleOf(rawTxs), posts, attempts + 1, round, x)
      ensures r.NotSent? ==> Waiting(BundleOf(rawTxs), posts, attempts + 1, round, x, e + 1)
      ensures r.BlockedByOperator? ==> Ended(BundleOf(rawTxs), posts, attempts + 1, false)
      ensures r.Sent? ==> var p := posts[|posts| - 1]; r == Sent(p.endpoint, p.moment.reply.result)
    {
      attempts := before + 1;
      var ep := Rpcs(endpoints)[e];
      RpcTakesOne(endpoints, e);
      r, posts := AttemptAt(ep, [rawTxs[x]], env, attempts, Rpc(round, x, e), past, posts0);
      SendStep(BundleOf(rawTxs), posts0, posts, attempts, round, x, e);
      if r == BlockedByOperator { RoundStops(BundleOf(rawTxs), posts, attempts + 1, round, x, e + 1); }
    }

    /** The endpoint loop for one transaction of one sequential round. */
    method SendOne(rawTxs: seq<Tx>, round: nat, x: nat, env: nat -> Moment, before: nat,
                   ghost past: Past, ghost posts0: seq<Post>)
      returns (r: Attempt, attempts: nat, ghost posts: seq<Post>)
      requires x < |rawTxs| && TimelyFrom(env, env(0).gateAt) && Going(env, before + 1, past, posts0, false)
      requires Waiting(BundleOf(rawTxs), posts0, before + 1, round, x, 0)
      modifies this`runtimeState, inv
      ensures Going(env, attempts + 1, past, posts, r == BlockedByOperator)
      ensures r.Sent? ==> Took(BundleOf(rawTxs), posts, attempts + 1, round, x)
      ensures r.NotSent? ==> Waiting(BundleOf(rawTxs), posts, attempts + 1, round, x, |Rpcs(endpoints)|)
      ensures r.BlockedByOperator? ==> Ended(BundleOf(rawTxs), posts, attempts + 1, false)
      ensures r.Sent? ==> var p := posts[|posts| - 1]; r == Sent(p.endpoint, p.moment.reply.result)
    {
      r, posts, attempts := NotSent, posts0, before;
      var e: nat := 0;
      while e < |Rpcs(endpoints)|
        invariant r == NotSent && e <= |Rpcs(endpoints)| && Going(env, attempts + 1, past, posts, false)
        invariant Waiting(BundleOf(rawTxs), posts, attempts + 1, round, x, e)
      {
        r, attempts, posts := SendTo(rawTxs, round, x, e, env, attempts, past, posts);
        e := e + 1;
        if r != NotSent { break; }
      }
    }

    /** One sequential round: each transaction in order, stopping at the first that is not accepted. */
    method SendRound(rawTxs: seq<Tx>, round: nat, env: nat -> Moment, before: nat,
                     ghost past: Past, ghost posts0: seq<Post>)
      returns (o: Outcome, attempts: nat, ghost posts: seq<Post>)
      requires rawTxs != [] && TimelyFrom(env, env(0).gateAt) && Going(env, before + 1, past, posts0, false)
      requires Waiting(BundleOf(rawTxs), posts0, before + 1, round, 0, 0)
      modifies this`runtimeState, inv
      ensures Going(env, attempts + 1, past, posts, o == Blocked)
      ensures o.SentSequentially? || o == Blocked || o == AllFailed
      ensures if o == AllFailed then Standing(BundleOf(rawTxs), posts, attempts + 1, Rpc(round + 1, 0, 0))
              else Ended(BundleOf(rawTxs), posts, attempts + 1, Succeeded(o))
      ensures o.SentSequentially? ==> SentInRound(rawTxs, o, posts, round)
    {
      posts, attempts := posts0, before;
      var x: nat := 0;
      var r;
      while true
        invariant x < |rawTxs| && Going(env, attempts + 1, past, posts, false)
        invariant Waiting(BundleOf(rawTxs), posts, attempts + 1, round, x, 0)
        decreases |rawTxs| - x
      {
        r, attempts, posts := SendOne(rawTxs, round, x, env, attempts, past, posts);
        if !r.Sent? || x + 1 == |rawTxs| { break; }
        NextTx(BundleOf(rawTxs), posts, attempts + 1, round, x);
        x := x + 1;
      }
      RoundEnds(BundleOf(rawTxs), posts, attempts + 1, round, x);
      o := if r.Sent? then SentSequentially(r.endpoint, if |rawTxs| == 1 then ResultOr(r.result, OkWord) else OkWord)
           else if r == BlockedByOperator then Blocked else AllFailed;
    }

    /** The outcome of a sequential success: a complete round, finished by the post just made. */
    ghost predicate SentInRound(rawTxs: seq<Tx>, o: Outcome, posts: seq<Post>, round: nat)
      requires rawTxs != []
    {
      && FinishedBy(posts, |rawTxs|) && RoundComplete(posts, round, |rawTxs|)
      && var p := posts[|posts| - 1];
         && Accepts(p, round, |rawTxs| - 1)
         && o == SentSequentially(p.endpoint, Summary(rawTxs, p))
    }

    /** What is reported: the response of a single transaction, if it had one, else "ok". */
    ghost function Summary(rawTxs: seq<Tx>, p: Post): Body
    {
      if |rawTxs| == 1 && p.Ok() && p.moment.reply.result.Some? then p.moment.reply.result.value else OkWord
    }

    /** The retry rounds of the sequential fallback. */
    method SendRounds(rawTxs: seq<Tx>, env: nat -> Moment, before: nat,
                      ghost past: Past, ghost posts0: seq<Post>)
      returns (o: Outcome, attempts: nat, ghost posts: seq<Post>, ghost last: nat)
      requires rawTxs != [] && TimelyFrom(env, env(0).gateAt) && Going(env, before + 1, past, posts0, false)
      requires Standing(BundleOf(rawTxs), posts0, before + 1, Rpc(0, 0, 0))
      modifies this`runtimeState, inv
      ensures Going(env, attempts + 1, past, posts, o == Blocked)
      ensures o.SentSequentially? || o == Blocked || o == AllFailed
      ensures if o == AllFailed then Standing(BundleOf(rawTxs), posts, attempts + 1, Public)
              else Ended(BundleOf(rawTxs), posts, attempts + 1, Succeeded(o))
      ensures o.SentSequentially? ==> SentInRound(rawTxs, o, posts, last)
    {
      var rounds := Max(2, maxRetries + 1);
      posts, attempts, last := posts0, before, 0;
      var round: nat := 0;
      while round < rounds
        invariant round <= rounds && Going(env, attempts + 1, past, posts, false)
        invariant Standing(BundleOf(rawTxs), posts, attempts + 1, Rpc(round, 0, 0))
      {
        RoundStarts(BundleOf(rawTxs), posts, attempts + 1, round);
        o, attempts, posts := SendRound(rawTxs, round, env, attempts, past, posts);
        last := round;
        if o != AllFailed { return; }
        round := round + 1;
      }
      RoundsDone(BundleOf(rawTxs), posts, attempts + 1);
      o := AllFailed;
    }

    /** `submit_private_bundle`: the builders once, then sequential rounds over the rpc endpoints,
        then the public endpoint with the first transaction. */
    method SubmitPrivateBundle(rawTxs: seq<Tx>, publicRpc: bool, mode: Mode, env: nat -> Moment)
      returns (o: Outcome, attempts: nat, ghost posts: seq<Post>, ghost last: nat)
      requires Valid() && TimelyFrom(env, inv.clock)
      modifies this, inv
      ensures Valid() && log == old(log) + posts && Fed(posts, old(inv.txHistory), inv.txHistory)
      ensures rawTxs == [] <==> o == EmptyInput
      ensures rawTxs != [] && old(VerdictAt(env(0)).state) != READY ==> o == Blocked && posts == []
      ensures rawTxs != [] && old(VerdictAt(env(0)).state) == READY && mode != Live ==>
              o == Virtual(mode) && posts == []
      ensures o.Virtual? ==> mode != Live
      ensures BundleFrom(rawTxs, BundleOf(rawTxs)) && Shape(BundleOf(rawTxs), posts)
      ensures AllOpen(env) ==> BuilderTurns(rawTxs, posts)
      ensures WithinTurns(BundleOf(rawTxs), enablePublicFallback && publicRpc, o, attempts, posts)
      ensures rawTxs != [] ==> BundleOutcome(rawTxs, o, posts, last, enablePublicFallback && publicRpc)
      ensures Succeeded(o) && (|rawTxs| == 1 || !enablePublicFallback || !publicRpc) ==>
              AllSent(BundleOf(rawTxs), posts)
      ensures Succeeded(o) ==>
              FinishedRun(Context(inv.limits, old(Histories()), old(inv.clock)), BundleOf(rawTxs),
                enablePublicFallback && publicRpc, env, posts, attempts)
      ensures Ran(inv.limits, env, old(Histories()), posts, attempts, o == Blocked && 0 < attempts)
      ensures o == Blocked ==> (0 < attempts <==> old(VerdictAt(env(0)).state) == READY)
      ensures StoppedFrom(env, 1) ==> posts == []
    {
      ghost var c := Context(inv.limits, Histories(), inv.clock);
      posts, attempts, last := [], 0, 0;
      assert log == log + [];
      NothingSent(rawTxs, publicRpc, mode, c, env);
      if rawTxs == [] { return EmptyInput, 0, [], 0; }
      var gated := Admit(mode, env);
      if gated.Some? { return gated.value, 0, [], 0; }
      o, attempts, posts, last := SendBundle(rawTxs, publicRpc, env, c.past);
      SubmissionKeeps(c, env, posts, attempts, o == Blocked);
      SubmissionEnds(rawTxs, publicRpc, c, env, o, attempts, posts, last);
      AllAllowedConcat(c.limits, log, posts);
      log := log + posts;
    }

    /** A submission that makes no attempt. */
    lemma NothingSent(rawTxs: seq<Tx>, publicRpc: bool, mode: Mode, c: Context, env: nat -> Moment)
      requires TimelyFrom(env, c.clock)
      ensures Ran(c.limits, env, c.past, [], 0, false) && Fed([], c.past.tx, c.past.tx) && Shape(BundleOf(rawTxs), [])
      ensures BundleFrom(rawTxs, BundleOf(rawTxs)) && BuilderTurns(rawTxs, [])
      ensures WithinTurns(BundleOf(rawTxs), enablePublicFallback && publicRpc, EmptyInput, 0, [])
      ensures WithinTurns(BundleOf(rawTxs), enablePublicFallback && publicRpc, Blocked, 0, [])
      ensures WithinTurns(BundleOf(rawTxs), enablePublicFallback && publicRpc, Virtual(mode), 0, [])
      ensures rawTxs != [] ==> Before([], Public) && Unfinished([], |rawTxs|)
    {
      RanNothing(c.limits, env, c.past);
      SubmissionKeeps(c, env, [], 0, false);
      AfterNothing(c.past);
      BundleIsFrom(rawTxs);
    }

    /** How many attempts there are: at most one for each builder, one for each rpc endpoint, transaction
        and round, and one more; and before the public endpoint has its turn or the submission gives up,
        at least one for each builder, and for each rpc endpoint and round, exactly so if no round got its
        first transaction through. */
    ghost predicate WithinTurns(b: Bundle, fallback: bool, o: Outcome, attempts: nat, posts: seq<Post>)
    {
      var least := |b.builders| + Turns(b.rounds, |b.rpcs|) + if fallback then 1 else 0;
      && attempts <= |b.builders| + Turns(b.rounds, Turns(|b.txs|, |b.rpcs|)) + 1
      && (o.AllFailed? || (o.SentBy? && !o.bundle) ==> least <= attempts && (Partial(posts) || attempts == least))
    }

    /** What a submission leaves behind, whatever came of it. */
    lemma SubmissionEnds(rawTxs: seq<Tx>, publicRpc: bool, c: Context, env: nat -> Moment, o: Outcome, attempts: nat,
                         posts: seq<Post>, last: nat)
      requires TimelyFrom(env, c.clock) && Shape(BundleOf(rawTxs), posts)
      requires Ran(c.limits, env, c.past, posts, attempts, o == Blocked && 0 < attempts)
      requires attempts <= Latest(BundleOf(rawTxs), Public)
      requires Exhausted(o) ==>
               LeastAttempts(publicRpc) <= attempts && (Partial(posts) || attempts == LeastAttempts(publicRpc))
      requires Succeeded(o) ==>
                && rawTxs != [] && VerdictOn(c.limits, c.past, env(0)).state == READY
                && BundleOutcome(rawTxs, o, posts, last, Fallback(publicRpc)) && posts[|posts| - 1].at == attempts
      ensures BundleFrom(rawTxs, BundleOf(rawTxs)) && (AllOpen(env) ==> BuilderTurns(rawTxs, posts))
      ensures WithinTurns(BundleOf(rawTxs), enablePublicFallback && publicRpc, o, attempts, posts)
      ensures Succeeded(o) ==>
                && FinishedRun(c, BundleOf(rawTxs), enablePublicFallback && publicRpc, env, posts, attempts)
                && (|rawTxs| == 1 || !enablePublicFallback || !publicRpc ==> AllSent(BundleOf(rawTxs), posts))
    {
      BundleIsFrom(rawTxs);
      if AllOpen(env) { TurnsOfBuilders(rawTxs, c, env, posts, attempts, o == Blocked && 0 < attempts); }
      if Succeeded(o) {
        OutcomeFinishes(rawTxs, o, posts, last, Fallback(publicRpc));
        SuccessSends(c, BundleOf(rawTxs), Fallback(publicRpc), env, posts, attempts);
      }
    }

    /** The attempts a submission makes before it gives up, if no round gets its first transaction
        through. */
    function LeastAttempts(publicRpc: bool): nat
    {
      |Builders(endpoints)| + Turns(Max(2, maxRetries + 1), |Rpcs(endpoints)|) + if Fallback(publicRpc) then 1 else 0
    }

    /** The public fallback is on and has an endpoint. */
    predicate Fallback(publicRpc: bool)
    {
      enablePublicFallback && publicRpc
    }

    /** The three ways a bundle goes out, and what each leaves behind; only with the fallback does
        anything reach the public endpoint. */
    ghost predicate BundleOutcome(rawTxs: seq<Tx>, o: Outcome, posts: seq<Post>, last: nat, fallback: bool)
      requires rawTxs != []
    {
      && (!fallback ==> Before(posts, Public))
      && match o
         case SentSequentially(_, _) => SentInRound(rawTxs, o, posts, last)
         case SentBy(_, _, _) =>
           && FinishedBy(posts, |rawTxs|)
           && var p := posts[|posts| - 1];
              o == SentBy(p.endpoint, p.moment.reply.result, p.stage.Builder?) && (p.stage.Builder? || p.stage.Public?)
         case _ => Unfinished(posts, |rawTxs|)
    }

    lemma OutcomeFinishes(rawTxs: seq<Tx>, o: Outcome, posts: seq<Post>, last: nat, fallback: bool)
      requires rawTxs != [] && Shape(BundleOf(rawTxs), posts) && BundleOutcome(rawTxs, o, posts, last, fallback)
      ensures Succeeded(o) ==> Finishes(BundleOf(rawTxs), fallback, posts)
    {
    }

    /** The live part of `submit_private_bundle`. */
    method SendBundle(rawTxs: seq<Tx>, publicRpc: bool, env: nat -> Moment, ghost past: Past)
      returns (o: Outcome, attempts: nat, ghost posts: seq<Post>, ghost last: nat)
      requires rawTxs != [] && TimelyFrom(env, env(0).gateAt) && Going(env, 1, past, [], false)
      modifies this`runtimeState, inv
      ensures Going(env, attempts + 1, past, posts, o == Blocked)
      ensures Shape(BundleOf(rawTxs), posts) && BundleOutcome(rawTxs, o, posts, last, Fallback(publicRpc))
      ensures attempts <= Latest(BundleOf(rawTxs), Public)
      ensures o.SentSequentially? || o.SentBy? || o == Blocked || o == AllFailed
      ensures Succeeded(o) ==> posts != [] && posts[|posts| - 1].at == attempts
      ensures Exhausted(o) ==>
              LeastAttempts(publicRpc) <= attempts && (Partial(posts) || attempts == LeastAttempts(publicRpc))
    {
      o, attempts, posts, last := SendPrivately(rawTxs, env, past);
      if o == AllFailed { o, attempts, posts := FallBack(rawTxs, publicRpc, env, attempts, past, posts); }
    }

    /** What follows when no private endpoint finished the submission. */
    method FallBack(rawTxs: seq<Tx>, publicRpc: bool, env: nat -> Moment, before: nat, ghost past: Past,
                    ghost posts0: seq<Post>)
      returns (o: Outcome, attempts: nat, ghost posts: seq<Post>)
      requires rawTxs != [] && TimelyFrom(env, env(0).gateAt) && Going(env, before + 1, past, posts0, false)
      requires Standing(BundleOf(rawTxs), posts0, before + 1, Public)
      modifies this`runtimeState, inv
      ensures Going(env, attempts + 1, past, posts, o == Blocked)
      ensures Shape(BundleOf(rawTxs), posts) && BundleOutcome(rawTxs, o, posts, 0, Fallback(publicRpc))
      ensures attempts <= Latest(BundleOf(rawTxs), Public)
      ensures o == Blocked || o == AllFailed
              || (o.SentBy? && !o.bundle && posts != [] && posts[|posts| - 1].at == attempts)
      ensures Exhausted(o) ==>
              LeastAttempts(publicRpc) <= attempts && (Partial(posts) || attempts == LeastAttempts(publicRpc))
    {
      PublicTurn(BundleOf(rawTxs), posts0, before + 1);
      if !Fallback(publicRpc) { return AllFailed, before, posts0; }
      attempts := before + 1;
      o, posts := TryPublic(rawTxs, env, before, past, posts0);
    }

    /** The builders and the sequential rounds. */
    method SendPrivately(rawTxs: seq<Tx>, env: nat -> Moment, ghost past: Past)
      returns (o: Outcome, attempts: nat, ghost posts: seq<Post>, ghost last: nat)
      requires rawTxs != [] && TimelyFrom(env, env(0).gateAt) && Going(env, 1, past, [], false)
      modifies this`runtimeState, inv
      ensures Going(env, attempts + 1, past, posts, o == Blocked)
      ensures o.SentSequentially? || o.SentBy? || o == Blocked || o == AllFailed
      ensures BundleOutcome(rawTxs, o, posts, last, false) && (o.SentBy? ==> o.bundle)
      ensures if o == AllFailed then Standing(BundleOf(rawTxs), posts, attempts + 1, Public)
              else Ended(BundleOf(rawTxs), posts, attempts + 1, Succeeded(o))
    {
      var r;
      r, attempts, posts := TryBuilders(rawTxs, env, past);
      last := 0;
      if r == BlockedByOperator { return Blocked, attempts, posts, 0; }
      if r.Sent? { return SentBy(r.endpoint, r.result, true), attempts, posts, 0; }
      if Rpcs(endpoints) == [] {
        NoRounds(BundleOf(rawTxs), posts, attempts + 1);
        return AllFailed, attempts, posts, 0;
      }
      o, attempts, posts, last := SendRounds(rawTxs, env, attempts, past, posts);
    }

    /** The public fallback: its payload is the first transaction only. */
    method TryPublic(rawTxs: seq<Tx>, env: nat -> Moment, before: nat,
                     ghost past: Past, ghost posts0: seq<Post>)
      returns (o: Outcome, ghost posts: seq<Post>)
      requires rawTxs != [] && TimelyFrom(env, env(0).gateAt) && Going(env, before + 1, past, posts0, false)
      requires Standing(BundleOf(rawTxs), posts0, before + 1, Public)
      modifies this`runtimeState, inv
      ensures Going(env, before + 2, past, posts, o == Blocked)
      ensures AtMostOneMore(posts0, posts, before + 1, Public, PublicFallback, [rawTxs[0]])
      ensures Shape(BundleOf(rawTxs), posts) && (Partial(posts0) ==> Partial(posts))
      ensures if o.SentBy? then
                posts != posts0 && FinishedBy(posts, |rawTxs|) && var p := posts[|posts| - 1];
                o == SentBy(p.endpoint, p.moment.reply.result, false)
              else (o == Blocked || o == AllFailed) && Unfinished(posts, |rawTxs|)
    {
      var ep := Endpoint(PublicFallback, RpcKind);
      var r;
      r, posts := AttemptAt(ep, rawTxs, env, before + 1, Public, past, posts0);
      PublicStep(BundleOf(rawTxs), posts0, posts, before + 1);
      o := OutcomeOf(r);
    }

    /** The fallback at work, for any endpoints and any history: if the guard blocks every private
        attempt and lets the public one through, a bundle of two or more is reported as sent although
        only its first transaction went out. */
    method FallbackDropsTheRest(rawTxs: seq<Tx>, env: nat -> Moment) returns (o: Outcome, ghost posts: seq<Post>)
      requires Valid() && 2 <= |rawTxs| && Fallback(true)
      requires LonelyEnv(Context(inv.limits, Histories(), inv.clock), env, LeastAttempts(true))
      modifies this, inv
      ensures env(LeastAttempts(true)).reply.Accepted?
      ensures o == SentBy(PublicFallback, env(LeastAttempts(true)).reply.result, false)
      ensures |posts| == 1 && posts[0].payload == [rawTxs[0]] && !AllSent(BundleOf(rawTxs), posts)
    {
      var attempts;
      ghost var last;
      ghost var c, b := Context(inv.limits, Histories(), inv.clock), BundleOf(rawTxs);
      ghost var only := Earliest(b, Public);
      assert only == LeastAttempts(true);
      assert LonelyAt(c, env, only, 0) && LonelyAt(c, env, only, only);
      o, attempts, posts, last := SubmitPrivateBundle(rawTxs, true, Live, env);
      OnlyPublicPost(c, b, env, posts, attempts, o == Blocked && 0 < attempts);
      SentPublicly(rawTxs, o, posts, last);
    }

    /** What the one post tells about the outcome. */
    lemma SentPublicly(rawTxs: seq<Tx>, o: Outcome, posts: seq<Post>, last: nat)
      requires 2 <= |rawTxs| && BundleOutcome(rawTxs, o, posts, last, true) && Shape(BundleOf(rawTxs), posts)
      requires |posts| == 1 && posts[0].stage == Public && posts[0].Ok()
      ensures o == SentBy(PublicFallback, posts[0].moment.reply.result, false)
      ensures posts[0].payload == [rawTxs[0]] && !AllSent(BundleOf(rawTxs), posts)
    {
      assert !UnfinishedAt(posts, 0, |rawTxs|) && ShapeAt(BundleOf(rawTxs), posts, 0);
      FinishedSendsAllIff(BundleOf(rawTxs), posts);
    }
  }

  predicate Succeeded(o: Outcome) { o.SentBy? || o.SentSequentially? }

  /** No private endpoint finished the submission, and nothing stopped it. */
  predicate Exhausted(o: Outcome) { o.AllFailed? || (o.SentBy? && !o.bundle) }

  /** What one attempt means for a single transaction. */
  function OutcomeOf(res: Attempt): Outcome
  {
    match res
    case Sent(endpoint, result) => SentBy(endpoint, result, false)
    case BlockedByOperator => Blocked
    case NotSent => AllFailed
  }

  function ResultOr(r: Option<Body>, default: Body): Body
  {
    if r.Some? then r.value else default
  }

  function Builders(endpoints: seq<Endpoint>): (r: seq<Endpoint>)
  {
    if endpoints == [] then []
    else (if TakesBundle(endpoints[0].kind) then [endpoints[0]] else []) + Builders(endpoints[1..])
  }

  function Rpcs(endpoints: seq<Endpoint>): (r: seq<Endpoint>)
  {
    if endpoints == [] then []
    else (if endpoints[0].kind == RpcKind then [endpoints[0]] else []) + Rpcs(endpoints[1..])
  }

  /** `names` are those of the endpoints of kind flashbots or builder, in order and without exception;
      `at` are their places. */
  ghost predicate PicksBuilders(endpoints: seq<Endpoint>, at: seq<int>, names: seq<Name>)
  {
    && |at| == |names| && (forall i: nat, j: nat :: i < j < |at| ==> Rising(at, i, j))
    && (forall i: nat :: i < |at| ==> PlaceOf(endpoints, at, names, i) && IsBuilderAt(endpoints, at[i]))
    && (forall j :: IsBuilderAt(endpoints, j) ==> j in at)
  }

  /** The same for kind rpc. */
  ghost predicate PicksRpcs(endpoints: seq<Endpoint>, at: seq<int>, names: seq<Name>)
  {
    && |at| == |names| && (forall i: nat, j: nat :: i < j < |at| ==> Rising(at, i, j))
    && (forall i: nat :: i < |at| ==> PlaceOf(endpoints, at, names, i) && IsRpcAt(endpoints, at[i]))
    && (forall j :: IsRpcAt(endpoints, j) ==> j in at)
  }

  ghost predicate Rising(at: seq<int>, i: nat, j: nat)
    requires i < |at| && j < |at|
  {
    at[i] < at[j]
  }

  ghost predicate PlaceOf(endpoints: seq<Endpoint>, at: seq<int>, names: seq<Name>, i: nat)
    requires i < |at| == |names|
  {
    0 <= at[i] < |endpoints| && names[i] == endpoints[at[i]].name
  }

  ghost predicate IsBuilderAt(endpoints: seq<Endpoint>, j: int)
  {
    0 <= j < |endpoints| && (endpoints[j].kind == Flashbots || endpoints[j].kind == BuilderKind)
  }

  ghost predicate IsRpcAt(endpoints: seq<Endpoint>, j: int)
  {
    0 <= j < |endpoints| && endpoints[j].kind == RpcKind
  }

  /** One endpoint more at the end of the list, picked or not. */
  lemma PlacesGrow(endpoints: seq<Endpoint>, at: seq<int>, names: seq<Name>, e: Endpoint, taken: bool)
    requires |at| == |names| && (forall i: nat, j: nat :: i < j < |at| ==> Rising(at, i, j))
    requires forall i: nat :: i < |at| ==> PlaceOf(endpoints, at, names, i)
    ensures var more := endpoints + [e];
            var at', names' := if taken then at + [|endpoints|] else at, if taken then names + [e.name] else names;
            && (forall i: nat, j: nat :: i < j < |at'| ==> Rising(at', i, j))
            && (forall i: nat :: i < |at'| ==> PlaceOf(more, at', names', i))
  {
    var more := endpoints + [e];
    var at', names' := if taken then at + [|endpoints|] else at, if taken then names + [e.name] else names;
    forall i: nat | i < |at'| ensures PlaceOf(more, at', names', i) {
      if i < |at| { assert PlaceOf(endpoints, at, names, i); }
    }
    forall i: nat, j: nat | i < j < |at'| ensures Rising(at', i, j) {
      assert PlaceOf(endpoints, at, names, i);
      if j < |at| { assert Rising(at, i, j); }
    }
  }

  lemma {:induction false} BuildersPicked(endpoints: seq<Endpoint>) returns (at: seq<int>)
    ensures PicksBuilders(endpoints, at, Names(Builders(endpoints)))
  {
    at := [];
    if endpoints != [] {
      var k := |endpoints| - 1;
      var front, e := endpoints[..k], endpoints[k];
      var at0 := BuildersPicked(front);
      assert endpoints == front + [e];
      BuildersSnoc(front, e);
      PlacesGrow(front, at0, Names(Builders(front)), e, TakesBundle(e.kind));
      at := if TakesBundle(e.kind) then at0 + [k] else at0;
      assert Names(Builders(endpoints)) == Names(Builders(front)) + if TakesBundle(e.kind) then [e.name] else [];
      forall j ensures IsBuilderAt(endpoints, j) <==> IsBuilderAt(front, j) || (j == k && TakesBundle(e.kind)) {}
      forall i: nat | i < |at| ensures IsBuilderAt(endpoints, at[i]) {
        if i < |at0| { assert IsBuilderAt(front, at0[i]); }
      }
    }
  }

  lemma {:induction false} RpcsPicked(endpoints: seq<Endpoint>) returns (at: seq<int>)
    ensures PicksRpcs(endpoints, at, Names(Rpcs(endpoints)))
  {
    at := [];
    if endpoints != [] {
      var k := |endpoints| - 1;
      var front, e := endpoints[..k], endpoints[k];
      var at0 := RpcsPicked(front);
      assert endpoints == front + [e];
      RpcsSnoc(front, e);
      PlacesGrow(front, at0, Names(Rpcs(front)), e, e.kind == RpcKind);
      at := if e.kind == RpcKind then at0 + [k] else at0;
      assert Names(Rpcs(endpoints)) == Names(Rpcs(front)) + if e.kind == RpcKind then [e.name] else [];
      forall j ensures IsRpcAt(endpoints, j) <==> IsRpcAt(front, j) || (j == k && e.kind == RpcKind) {}
      forall i: nat | i < |at| ensures IsRpcAt(endpoints, at[i]) {
        if i < |at0| { assert IsRpcAt(front, at0[i]); }
      }
    }
  }

  lemma {:induction false} BuildersSnoc(endpoints: seq<Endpoint>, e: Endpoint)
    ensures Builders(endpoints + [e]) == Builders(endpoints) + if TakesBundle(e.kind) then [e] else []
  {
    if endpoints == [] {
      assert [e][1..] == [];
    } else {
      assert (endpoints + [e])[1..] == endpoints[1..] + [e];
      BuildersSnoc(endpoints[1..], e);
      var first := if TakesBundle(endpoints[0].kind) then [endpoints[0]] else [];
      Associative(first, Builders(endpoints[1..]), if TakesBundle(e.kind) then [e] else []);
    }
  }

  lemma {:induction false} RpcsSnoc(endpoints: seq<Endpoint>, e: Endpoint)
    ensures Rpcs(endpoints + [e]) == Rpcs(endpoints) + if e.kind == RpcKind then [e] else []
  {
    if endpoints == [] {
      assert [e][1..] == [];
    } else {
      assert (endpoints + [e])[1..] == endpoints[1..] + [e];
      RpcsSnoc(endpoints[1..], e);
      var first := if endpoints[0].kind == RpcKind then [endpoints[0]] else [];
      Associative(first, Rpcs(endpoints[1..]), if e.kind == RpcKind then [e] else []);
    }
  }

  lemma {:induction false} BuilderTakesBundle(endpoints: seq<Endpoint>, i: nat)
    requires i < |Builders(endpoints)|
    ensures TakesBundle(Builders(endpoints)[i].kind)
  {
    var first := if TakesBundle(endpoints[0].kind) then 1 else 0;
    if first <= i { BuilderTakesBundle(endpoints[1..], i - first); }
  }

  lemma {:induction false} RpcTakesOne(endpoints: seq<Endpoint>, i: nat)
    requires i < |Rpcs(endpoints)|
    ensures Rpcs(endpoints)[i].kind == RpcKind
  {
    var first := if endpoints[0].kind == RpcKind then 1 else 0;
    if first <= i { RpcTakesOne(endpoints[1..], i - first); }
  }

  function Names(endpoints: seq<Endpoint>): (names: seq<Name>)
    ensures |names| == |endpoints| && forall i :: 0 <= i < |names| ==> names[i] == endpoints[i].name
  {
    seq(|endpoints|, i requires 0 <= i < |endpoints| => endpoints[i].name)
  }
}
