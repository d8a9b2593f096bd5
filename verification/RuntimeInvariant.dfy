/** The runtime health rules of bot/core/invariants.py over its two bounded sample deques. */
module RuntimeInvariant {
  import opened BotStates
  import opened Numbers
  import opened SampleWindows

  datatype Reason =
    | OperatorKillSwitch
    | OperatorNotTrading
    | DrawdownLimit
    | RpcP99High
    | TxFailureRateHigh
    | Healthy

  datatype Verdict = Verdict(state: BotState, reason: Reason)

  /** Thresholds read from the environment when the process starts. */
  datatype Limits = Limits(rpcP99Ms: real, rpcWindowMin: int, drawdown: real, txFailRate: real, txFailWindowMin: int)
  {
    /** The trimming window in seconds: no rule looks further back. */
    function Widest(): real
    {
      Seconds(Max(rpcWindowMin, Max(txFailWindowMin, 10)))
    }
  }

  function Seconds(minutes: int): real { (minutes * 60) as real }

  function Exceeds(measured: Option<real>, limit: real): bool
  {
    measured.Some? && measured.value > limit
  }

  /** 99th percentile of the latencies in the rpc window ending at `now`. */
  function RpcP99Of(limits: Limits, rpc: seq<Sample<real>>, now: real): Option<real>
  {
    P99(InWindow(rpc, now - Seconds(limits.rpcWindowMin)))
  }

  /** Share of failed transactions in the failure window ending at `now`. */
  function FailureRateOf(limits: Limits, tx: seq<Sample<bool>>, now: real): Option<real>
  {
    FailureRate(InWindow(tx, now - Seconds(limits.txFailWindowMin)))
  }

  /** The rules in the order `evaluate` applies them, on the samples of two histories. */
  function Decide(limits: Limits, rpc: seq<Sample<real>>, tx: seq<Sample<bool>>,
                  operator: OperatorState, drawdown: real, now: real): (v: Verdict)
  {
    if operator.killSwitch then Verdict(PANIC, OperatorKillSwitch)
    else if !operator.trading then Verdict(PAUSED, OperatorNotTrading)
    else if drawdown > limits.drawdown then Verdict(PANIC, DrawdownLimit)
    else if Exceeds(RpcP99Of(limits, rpc, now), limits.rpcP99Ms) then
      Verdict(DEGRADED, RpcP99High)
    else if Exceeds(FailureRateOf(limits, tx, now), limits.txFailRate) then
      Verdict(DEGRADED, TxFailureRateHigh)
    else Verdict(READY, Healthy)
  }

  /** The widest window is the largest of the two rule windows and ten minutes. */
  lemma WidestMeans(limits: Limits)
    ensures limits.Widest() >= (60 * limits.rpcWindowMin) as real
    ensures limits.Widest() >= (60 * limits.txFailWindowMin) as real
    ensures limits.Widest() >= 600.0
    ensures limits.Widest() == 600.0 || limits.Widest() == (60 * limits.rpcWindowMin) as real
            || limits.Widest() == (60 * limits.txFailWindowMin) as real
  {
  }

  /** The samples that the rules look at: latencies and results in their windows with their places in
      the histories, the latencies sorted, and the place of the percentile. */
  datatype Evidence = Evidence(
    lat: seq<real>, latAt: seq<int>, sorted: seq<real>, k: nat, oks: seq<bool>, oksAt: seq<int>)

  /** Windows of whole minutes on the last 20,000 samples of each history. */
  ghost predicate IsEvidence(limits: Limits, rpc: seq<Sample<real>>, tx: seq<Sample<bool>>, now: real, e: Evidence)
  {
    && SelectsRecent(rpc, now - (60 * limits.rpcWindowMin) as real, e.latAt, e.lat)
    && SelectsRecent(tx, now - (60 * limits.txFailWindowMin) as real, e.oksAt, e.oks)
    && (e.lat != [] ==> e.k < |e.sorted| && Percentile99(e.lat, e.sorted, e.k, e.sorted[e.k]))
  }

  /** There are results, and more than this share of them are failures. */
  ghost predicate FailsTooOften(oks: seq<bool>, rate: real)
  {
    oks != [] && rate * |oks| as real < |set i | 0 <= i < |oks| && !oks[i]| as real
  }

  /** The rules on full histories, in plain terms: where they look, what they compare, and in which order. */
  lemma DecideMeans(limits: Limits, rpc: seq<Sample<real>>, tx: seq<Sample<bool>>, operator: OperatorState,
                    drawdown: real, now: real)
    returns (e: Evidence)
    ensures IsEvidence(limits, rpc, tx, now, e)
    ensures Decide(limits, Recent(rpc), Recent(tx), operator, drawdown, now) ==
            if operator.killSwitch then Verdict(PANIC, OperatorKillSwitch)
            else if !operator.trading then Verdict(PAUSED, OperatorNotTrading)
            else if limits.drawdown < drawdown then Verdict(PANIC, DrawdownLimit)
            else if e.lat != [] && limits.rpcP99Ms < e.sorted[e.k] then Verdict(DEGRADED, RpcP99High)
            else if FailsTooOften(e.oks, limits.txFailRate) then Verdict(DEGRADED, TxFailureRateHigh)
            else Verdict(READY, Healthy)
  {
    var lat, latAt, sorted, k := LatencyEvidence(limits, rpc, now);
    var oks, oksAt := ResultEvidence(limits, tx, now);
    e := Evidence(lat, latAt, sorted, k, oks, oksAt);
  }

  lemma LatencyEvidence(limits: Limits, rpc: seq<Sample<real>>, now: real)
    returns (lat: seq<real>, at: seq<int>, sorted: seq<real>, k: nat)
    ensures SelectsRecent(rpc, now - (60 * limits.rpcWindowMin) as real, at, lat)
    ensures lat != [] ==> k < |sorted| && Percentile99(lat, sorted, k, sorted[k])
    ensures Exceeds(RpcP99Of(limits, Recent(rpc), now), limits.rpcP99Ms) <==> lat != [] && limits.rpcP99Ms < sorted[k]
  {
    var cutoff := now - Seconds(limits.rpcWindowMin);
    at := RecentSelects(rpc, cutoff);
    lat := InWindow(Recent(rpc), cutoff);
    sorted, k := P99Means(lat);
  }

  lemma ResultEvidence(limits: Limits, tx: seq<Sample<bool>>, now: real) returns (oks: seq<bool>, at: seq<int>)
    ensures SelectsRecent(tx, now - (60 * limits.txFailWindowMin) as real, at, oks)
    ensures Exceeds(FailureRateOf(limits, Recent(tx), now), limits.txFailRate)
            <==> FailsTooOften(oks, limits.txFailRate)
  {
    var cutoff := now - Seconds(limits.txFailWindowMin);
    at := RecentSelects(tx, cutoff);
    oks := InWindow(Recent(tx), cutoff);
    RateMeans(oks, limits.txFailRate);
  }

  lemma RateMeans(oks: seq<bool>, rate: real)
    ensures Exceeds(FailureRate(oks), rate) <==> FailsTooOften(oks, rate)
  {
    CountFailedMeans(oks);
    if oks != [] { RatioAbove(CountFailed(oks), |oks|, rate); }
  }

  class RuntimeInvariants {
    const limits: Limits
    var rpcSamples: seq<Sample<real>>
    var txSamples: seq<Sample<bool>>

    // Everything ever observed, and the latest time read from the clock
    ghost var rpcHistory: seq<Sample<real>>
    ghost var txHistory: seq<Sample<bool>>
    ghost var clock: real

    ghost predicate Valid()
      reads this
    {
      && Keeps(rpcSamples, rpcHistory, clock, limits.Widest())
      && Keeps(txSamples, txHistory, clock, limits.Widest())
    }

    constructor (limits: Limits, ghost now: real)
      ensures Valid() && this.limits == limits
      ensures rpcHistory == [] && txHistory == [] && clock == now
    {
      this.limits := limits;
      rpcSamples, txSamples := [], [];
      rpcHistory, txHistory, clock := [], [], now;
    }

    /** `_trim`: pops the front of both deques while it is older than the widest window. */
    method Trim(now: real)
      requires Valid() && clock <= now
      modifies this`rpcSamples, this`txSamples, this`clock
      ensures Valid() && clock == now
      ensures rpcSamples == DropOld(old(rpcSamples), now - limits.Widest())
      ensures txSamples == DropOld(old(txSamples), now - limits.Widest())
    {
      KeepsTrim(rpcSamples, rpcHistory, clock, limits.Widest(), now);
      KeepsTrim(txSamples, txHistory, clock, limits.Widest(), now);
      var cutoff := now - limits.Widest();
      while rpcSamples != [] && rpcSamples[0].ts < cutoff
        invariant DropOld(rpcSamples, cutoff) == DropOld(old(rpcSamples), cutoff) && txSamples == old(txSamples)
        decreases |rpcSamples|
      {
        rpcSamples := rpcSamples[1..];
      }
      while txSamples != [] && txSamples[0].ts < cutoff
        invariant rpcSamples == DropOld(old(rpcSamples), cutoff)
        invariant DropOld(txSamples, cutoff) == DropOld(old(txSamples), cutoff)
        decreases |txSamples|
      {
        txSamples := txSamples[1..];
      }
      clock := now;
    }

    method ObserveRpcLatencyMs(latencyMs: real, now: real)
      requires Valid() && clock <= now
      modifies this
      ensures Valid() && clock == now
      ensures rpcHistory == old(rpcHistory) + [Sample(now, MaxReal(0.0, latencyMs))]
      ensures txHistory == old(txHistory)
    {
      var x := Sample(now, MaxReal(0.0, latencyMs));
      KeepsPush(rpcSamples, rpcHistory, clock, limits.Widest(), x);
      KeepsLater(txSamples, txHistory, clock, limits.Widest(), now);
      rpcSamples := Push(rpcSamples, x);
      rpcHistory := rpcHistory + [x];
      clock := now;
      Trim(now);
    }

    method ObserveTxResult(ok: bool, now: real)
      requires Valid() && clock <= now
      modifies this
      ensures Valid() && clock == now
      ensures txHistory == old(txHistory) + [Sample(now, ok)]
      ensures rpcHistory == old(rpcHistory)
    {
      var x := Sample(now, ok);
      KeepsPush(txSamples, txHistory, clock, limits.Widest(), x);
      KeepsLater(rpcSamples, rpcHistory, clock, limits.Widest(), now);
      txSamples := Push(txSamples, x);
      txHistory := txHistory + [x];
      clock := now;
      Trim(now);
    }

    /** The percentile read from the deque is the one of the last 20,000 samples ever observed. */
    method RpcP99Ms(now: real) returns (r: Option<real>)
      requires Valid() && clock <= now
      ensures r == RpcP99Of(limits, Recent(rpcHistory), now)
    {
      WindowUnaffected(rpcSamples, rpcHistory, clock, limits.Widest(), now, Seconds(limits.rpcWindowMin));
      r := P99(InWindow(rpcSamples, now - Seconds(limits.rpcWindowMin)));
    }

    method TxFailureRate(now: real) returns (r: Option<real>)
      requires Valid() && clock <= now
      ensures r == FailureRateOf(limits, Recent(txHistory), now)
    {
      WindowUnaffected(txSamples, txHistory, clock, limits.Widest(), now, Seconds(limits.txFailWindowMin));
      r := FailureRate(InWindow(txSamples, now - Seconds(limits.txFailWindowMin)));
    }

    method ErrorsLast10m(now: real) returns (n: nat)
      requires Valid() && clock <= now
      ensures n == CountFailed(InWindow(Recent(txHistory), now - 600.0))
    {
      WindowUnaffected(txSamples, txHistory, clock, limits.Widest(), now, 600.0);
      n := CountFailed(InWindow(txSamples, now - 600.0));
    }

    /** `evaluate` decides on the last 20,000 samples ever observed, whatever was trimmed before. */
    method Evaluate(operator: OperatorState, drawdown: real, now: real) returns (v: Verdict)
      requires Valid() && clock <= now
      modifies this`rpcSamples, this`txSamples, this`clock
      ensures Valid() && clock == now
      ensures v == Decide(limits, Recent(rpcHistory), Recent(txHistory), operator, drawdown, now)
    {
      Trim(now);
      if operator.killSwitch { return Verdict(PANIC, OperatorKillSwitch); }
      if !operator.trading { return Verdict(PAUSED, OperatorNotTrading); }
      if drawdown > limits.drawdown { return Verdict(PANIC, DrawdownLimit); }
      var rpcP99 := RpcP99Ms(now);
      if Exceeds(rpcP99, limits.rpcP99Ms) { return Verdict(DEGRADED, RpcP99High); }
      var failRate := TxFailureRate(now);
      if Exceeds(failRate, limits.txFailRate) { return Verdict(DEGRADED, TxFailureRateHigh); }
      return Verdict(READY, Healthy);
    }
  }
}
