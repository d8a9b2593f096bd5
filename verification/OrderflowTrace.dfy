/** What a private submission leaves behind: the posts it made, what each post's gate saw, and how
    the results of earlier posts close the gate for later ones. */
module OrderflowTrace {
  import opened BotStates
  import opened SampleWindows
  import opened RuntimeInvariant

  /** A raw transaction; only equality matters. */
  type Tx = int

  /** An endpoint's name. */
  datatype Name = PublicFallback | Configured(id: nat)

  /** What a response carries as its result; `OkWord` is the word "ok". */
  datatype Body = OkWord | Reported(id: nat)

  /** The execution guard's three environment switches. */
  datatype Guard = Guard(enabled: bool, executionEnabled: bool, allowedStates: set<BotState>)

  /** `should_block_execution` when the process-wide state is `runtime`. */
  predicate GuardBlocks(guard: Guard, runtime: BotState)
  {
    guard.enabled && (!guard.executionEnabled || runtime !in guard.allowedStates)
  }

  /** How the network answers one post. */
  datatype Reply =
    | Accepted(result: Option<Body>)
    | RpcError
    | Transport
    | Raised

  /** Everything one attempt reads from outside: the operator file, the environment, three clock
      readings, and the answer the network would give. */
  datatype Moment = Moment(
    operator: OperatorState, drawdown: real, guard: Guard,
    gateAt: real, latencyAt: real, latencyMs: real, resultAt: real, reply: Reply)

  ghost predicate Timely(m: Moment) { m.gateAt <= m.latencyAt <= m.resultAt }

  ghost predicate InOrder(env: nat -> Moment, i: nat)
  {
    Timely(env(i)) && env(i).resultAt <= env(i + 1).gateAt
  }

  /** Readings of one non-decreasing clock, from `clock` on. */
  ghost predicate TimelyFrom(env: nat -> Moment, clock: real)
  {
    clock <= env(0).gateAt && forall i: nat :: InOrder(env, i)
  }

  /** Where in a submission a post was made: endpoint `ep` of a retry round, of the builders, or of
      the rpc endpoints while sending transaction `txIndex` of a round. */
  datatype Stage = Single(round: nat, ep: nat) | Builder(ep: nat) | Rpc(round: nat, txIndex: nat, ep: nat) | Public

  /** The order in which a submission may reach the stages. */
  predicate Earlier(s: Stage, t: Stage)
  {
    match (s, t)
    case (Single(r, e), Single(r', e')) => r < r' || (r == r' && e < e')
    case (Builder(e), Builder(e')) => e < e'
    case (Builder(_), Rpc(_, _, _)) => true
    case (Builder(_), Public) => true
    case (Rpc(r, x, e), Rpc(r', x', e')) => r < r' || (r == r' && (x < x' || (x == x' && e < e')))
    case (Rpc(_, _, _), Public) => true
    case _ => false
  }

  /** One post that reached the network, in the attempt `at` of its submission. `rpc` and `tx` are
      the full sample histories at its gate. */
  datatype Post = Post(
    at: nat, stage: Stage, endpoint: Name, payload: seq<Tx>, mode: Mode, moment: Moment,
    rpc: seq<Sample<real>>, tx: seq<Sample<bool>>)
  {
    predicate Ok() { moment.reply.Accepted? }

    function Result(): Sample<bool> { Sample(moment.resultAt, Ok()) }
  }

  /** The post was allowed: live mode, a healthy verdict on the histories, and no guard. */
  ghost predicate Allowed(limits: Limits, p: Post)
  {
    && p.mode == Live
    && Decide(limits, Recent(p.rpc), Recent(p.tx), p.moment.operator, p.moment.drawdown, p.moment.gateAt).state == READY
    && !GuardBlocks(p.moment.guard, READY)
  }

  /** Every post of a log was allowed. */
  ghost predicate AllAllowed(limits: Limits, log: seq<Post>)
  {
    forall i :: 0 <= i < |log| ==> AllowedAt(limits, log, i)
  }

  ghost predicate AllowedAt(limits: Limits, log: seq<Post>, i: nat)
    requires i < |log|
  {
    Allowed(limits, log[i])
  }

  lemma AllAllowedConcat(limits: Limits, log: seq<Post>, more: seq<Post>)
    requires AllAllowed(limits, log) && AllAllowed(limits, more)
    ensures AllAllowed(limits, log + more)
  {
    forall i | 0 <= i < |log + more| ensures AllowedAt(limits, log + more, i) {
      if i < |log| { assert AllowedAt(limits, log, i); } else { assert AllowedAt(limits, more, i - |log|); }
    }
  }

  /** No post without live mode, a trading operator, no kill switch, and every measured limit kept. */
  lemma AllowedMeans(limits: Limits, p: Post)
    requires Allowed(limits, p)
    ensures p.mode == Live && p.moment.operator.trading && !p.moment.operator.killSwitch
    ensures p.moment.drawdown <= limits.drawdown
    ensures var r := RpcP99Of(limits, Recent(p.rpc), p.moment.gateAt); r.Some? ==> r.value <= limits.rpcP99Ms
    ensures var r := FailureRateOf(limits, Recent(p.tx), p.moment.gateAt); r.Some? ==> r.value <= limits.txFailRate
  {
  }

  /** A guard lets no post through, whatever else holds, exactly if it is enabled and either execution
      is disabled or READY is not among the allowed states: the gate in front of it has just set the
      process-wide state to READY. */
  lemma GuardStopsAllIff(limits: Limits, guard: Guard)
    ensures (forall p: Post :: p.moment.guard == guard ==> !Allowed(limits, p))
            <==> guard.enabled && (!guard.executionEnabled || READY !in guard.allowedStates)
  {
    if !GuardBlocks(guard, READY) {
      var m := Moment(OperatorState(false, true), limits.drawdown, guard, 0.0, 0.0, 0.0, 0.0, RpcError);
      var p := Post(1, Public, PublicFallback, [], Live, m, [], []);
      assert Allowed(limits, p);
    }
  }

  function Results(posts: seq<Post>): (r: seq<Sample<bool>>)
    ensures |r| == |posts| && forall i :: 0 <= i < |posts| ==> r[i] == posts[i].Result()
  {
    seq(|posts|, i requires 0 <= i < |posts| => posts[i].Result())
  }

  /** Every gate saw the history before the submission plus the results of all earlier posts. */
  ghost predicate Fed(posts: seq<Post>, before: seq<Sample<bool>>, after: seq<Sample<bool>>)
  {
    && (forall i :: 0 <= i < |posts| ==> FedAt(posts, before, i))
    && after == before + Results(posts)
  }

  ghost predicate FedAt(posts: seq<Post>, before: seq<Sample<bool>>, i: nat)
    requires i < |posts|
  {
    && Timely(posts[i].moment) && posts[i].tx == before + Results(posts)[..i]
    && AllBy(posts[..i], posts[i].moment.gateAt)
  }

  /** Every post was made, and answered, before `t`. */
  ghost predicate AllBy(posts: seq<Post>, t: real)
  {
    forall i :: 0 <= i < |posts| ==> ByAt(posts, i, t)
  }

  ghost predicate ByAt(posts: seq<Post>, i: nat, t: real)
    requires i < |posts|
  {
    posts[i].moment.resultAt <= t
  }
}
