/** The rpc circuit breaker and the retrying caller of bot/exec/engine.py. */
module RpcReliability {
  import opened Numbers
  import opened SampleWindows

  /** One recorded invocation. */
  datatype Rec = Rec(ok: bool, at: real)

  /** The outcomes of the last `n` records. */
  function LastOutcomes(recs: seq<Rec>, n: nat): (r: seq<bool>)
  {
    if recs == [] || n == 0 then []
    else LastOutcomes(recs[..|recs| - 1], n - 1) + [recs[|recs| - 1].ok]
  }

  /** A window of outcomes trips the breaker. */
  predicate Trips(oks: seq<bool>, window: nat, threshold: real)
  {
    0 < |oks| && Ratio(CountFailed(oks), |oks|) >= threshold && |oks| >= if window < 10 then window else 10
  }

  /** Until when the breaker is open after these records: the latest failure that tripped it. */
  function OpenUntil(recs: seq<Rec>, window: nat, threshold: real, openSeconds: real): (t: real)
  {
    if recs == [] then 0.0
    else
      var last := recs[|recs| - 1];
      if !last.ok && Trips(LastOutcomes(recs, window), window, threshold) then last.at + openSeconds
      else OpenUntil(recs[..|recs| - 1], window, threshold, openSeconds)
  }

  lemma {:induction false} LastOutcomesSpec(recs: seq<Rec>, n: nat)
    ensures |LastOutcomes(recs, n)| == if |recs| < n then |recs| else n
    ensures forall i :: 0 <= i < |LastOutcomes(recs, n)| ==>
              LastOutcomes(recs, n)[i] == recs[|recs| - |LastOutcomes(recs, n)| + i].ok
  {
    if recs != [] && n > 0 {
      LastOutcomesSpec(recs[..|recs| - 1], n - 1);
    }
  }

  /** A window shorter by one holds the same outcomes but for the oldest of a full one. */
  lemma {:induction false} OneFewer(recs: seq<Rec>, n: nat)
    requires 0 < n
    ensures var s := LastOutcomes(recs, n); |s| <= n && LastOutcomes(recs, n - 1) == if |s| < n then s else s[1..]
  {
    if recs != [] && 1 < n {
      var before := recs[..|recs| - 1];
      OneFewer(before, n - 1);
      var p := LastOutcomes(before, n - 1);
      assert |p| == n - 1 ==> (p + [recs[|recs| - 1].ok])[1..] == p[1..] + [recs[|recs| - 1].ok];
    }
  }

  /** One more record pushes out the oldest of a full window. */
  lemma LastOutcomesPush(recs: seq<Rec>, r: Rec, n: nat)
    requires 0 < n
    ensures var s := LastOutcomes(recs, n);
            LastOutcomes(recs + [r], n) == (if |s| < n then s else s[1..]) + [r.ok]
  {
    OneFewer(recs, n);
    assert (recs + [r])[..|recs|] == recs;
  }

  /** A failure never lowers the failure ratio of the window, whether or not it is full. */
  lemma RatioNeverFallsOnFailure(s: seq<bool>, n: nat)
    requires 0 < |s| <= n
    ensures var s' := (if |s| < n then s else s[1..]) + [false];
            Ratio(CountFailed(s'), |s'|) >= Ratio(CountFailed(s), |s|)
  {
    var keep := if |s| < n then s else s[1..];
    CountFailedConcat(keep, [false]);
    var f, m := CountFailed(s), |s|;
    if |s| < n {
      OneMore(f, m);
    } else {
      RatioMonotone(f, CountFailed(keep) + 1, m);
    }
  }

  lemma OneMore(f: nat, m: nat)
    requires f <= m && 0 < m
    ensures Ratio(f + 1, m + 1) >= Ratio(f, m)
  {
    RatioInUnit(f, m);
    var q, a := Ratio(f, m), m as real;
    assert q * a == f as real;
    RatioAtLeast(f + 1, m + 1, q) by {
      assert q * (a + 1.0) == q * a + q;
    }
  }

  lemma RatioMonotone(f: nat, g: nat, m: nat)
    requires f <= g && 0 < m
    ensures Ratio(g, m) >= Ratio(f, m)
  {
    var q := Ratio(f, m);
    assert q * m as real == f as real;
    RatioAtLeast(g, m, q);
  }

  lemma RatioAtLeast(f: nat, m: nat, q: real)
    requires 0 < m && f as real >= q * m as real
    ensures Ratio(f, m) >= q
  {
    var r, a := Ratio(f, m), m as real;
    assert r * a == f as real;
    if r < q {
      assert (q - r) * a > 0.0;
      assert (q - r) * a == q * a - r * a;
    }
  }

  ghost predicate AllFailed(recs: seq<Rec>)
  {
    forall i :: 0 <= i < |recs| ==> !recs[i].ok
  }

  /** Once tripped, every further failure with no success in between trips the breaker again. */
  lemma {:induction false} TripsAgain(recs: seq<Rec>, more: seq<Rec>, window: nat, threshold: real)
    requires 0 < window && Trips(LastOutcomes(recs, window), window, threshold) && AllFailed(more)
    ensures Trips(LastOutcomes(recs + more, window), window, threshold)
  {
    if more == [] {
      assert recs + more == recs;
    } else {
      var k := |more| - 1;
      TripsAgain(recs, more[..k], window, threshold);
      var before := recs + more[..k];
      assert recs + more == before + [more[k]];
      LastOutcomesPush(before, more[k], window);
      LastOutcomesSpec(before, window);
      RatioNeverFallsOnFailure(LastOutcomes(before, window), window);
    }
  }

  /** ... and so the breaker stays open for open_seconds from the last of them. */
  lemma OpenAfterFailures(recs: seq<Rec>, more: seq<Rec>, window: nat, threshold: real, openSeconds: real)
    requires 0 < window && Trips(LastOutcomes(recs, window), window, threshold) && AllFailed(more) && more != []
    ensures OpenUntil(recs + more, window, threshold, openSeconds) == more[|more| - 1].at + openSeconds
  {
    TripsAgain(recs, more, window, threshold);
    assert (recs + more)[|recs + more| - 1] == more[|more| - 1];
  }

  function Flags(oks: seq<bool>): (r: seq<int>)
    ensures |r| == |oks|
  {
    seq(|oks|, i requires 0 <= i < |oks| => if oks[i] then 0 else 1)
  }

  function Sum(s: seq<int>): (n: int)
  {
    if s == [] then 0 else s[0] + Sum(s[1..])
  }

  lemma {:induction false} SumOfFlags(oks: seq<bool>)
    ensures Sum(Flags(oks)) == CountFailed(oks)
  {
    if oks != [] {
      SumOfFlags(oks[1..]);
      assert Flags(oks)[1..] == Flags(oks[1..]);
    }
  }

  /** The outcomes trip the breaker: there are ten of them, or as many as the window holds if that is
      less, and the failures make up the threshold. */
  ghost predicate TooManyFailed(oks: seq<bool>, window: nat, threshold: real)
  {
    && oks != [] && (10 <= |oks| || window <= |oks|)
    && threshold * |oks| as real <= |set i | 0 <= i < |oks| && !oks[i]| as real
  }

  lemma TripsMeans(oks: seq<bool>, window: nat, threshold: real)
    ensures Trips(oks, window, threshold) <==> TooManyFailed(oks, window, threshold)
  {
    CountFailedMeans(oks);
    if oks != [] { RatioReaches(CountFailed(oks), |oks|, threshold); }
  }

  lemma RatioReaches(failed: nat, total: nat, rate: real)
    requires 0 < total
    ensures Ratio(failed, total) >= rate <==> rate * total as real <= failed as real
  {
    ReachesMeans(failed as real, total as real, rate);
  }

  lemma ReachesMeans(x: real, a: real, rate: real)
    requires 0.0 < a
    ensures x / a >= rate <==> x >= rate * a
  {
    var q := x / a;
    assert q * a == x;
    if q >= rate { assert (q - rate) * a >= 0.0; } else { assert (rate - q) * a > 0.0; }
  }

  /** `oks` are the outcomes of the last `window` records. */
  ghost predicate LatestOutcomes(recs: seq<Rec>, window: nat, oks: seq<bool>)
  {
    && |oks| == (if |recs| < window then |recs| else window)
    && forall i :: 0 <= i < |oks| ==> oks[i] == recs[|recs| - |oks| + i].ok
  }

  /** Each record in turn: a failure that trips the breaker opens it from then on, anything else leaves
      it as it is. */
  lemma OpenUntilMeans(recs: seq<Rec>, r: Rec, window: nat, threshold: real, openSeconds: real) returns (oks: seq<bool>)
    ensures OpenUntil([], window, threshold, openSeconds) == 0.0
    ensures LatestOutcomes(recs + [r], window, oks)
    ensures OpenUntil(recs + [r], window, threshold, openSeconds) ==
            if !r.ok && TooManyFailed(oks, window, threshold) then r.at + openSeconds
            else OpenUntil(recs, window, threshold, openSeconds)
  {
    oks := LastOutcomes(recs + [r], window);
    LastOutcomesSpec(recs + [r], window);
    TripsMeans(oks, window, threshold);
    assert (recs + [r])[..|recs|] == recs;
  }

  lemma RingPush(recs: seq<Rec>, r: Rec, n: nat)
    requires 0 < n
    ensures var s := Flags(LastOutcomes(recs, n));
            Flags(LastOutcomes(recs + [r], n)) == (if |s| < n then s else s[1..]) + [if r.ok then 0 else 1]
    ensures LastOutcomes(recs + [r], n) != []
  {
    LastOutcomesPush(recs, r, n);
  }

  lemma OpenUntilSnoc(recs: seq<Rec>, r: Rec, window: nat, threshold: real, openSeconds: real)
    ensures OpenUntil(recs + [r], window, threshold, openSeconds) ==
            if !r.ok && Trips(LastOutcomes(recs + [r], window), window, threshold) then r.at + openSeconds
            else OpenUntil(recs, window, threshold, openSeconds)
  {
    assert (recs + [r])[..|recs|] == recs;
  }

  class RpcCircuitBreaker {
    const windowSize: int
    const errorRatioThreshold: real
    const openSeconds: real
    var events: seq<int>
    var openUntil: real

    // Every invocation ever recorded
    ghost var recs: seq<Rec>

    /** The ring holds exactly the last window_size outcomes, and the breaker is open until what the
        whole record says. */
    ghost predicate Valid()
      reads this
    {
      && 5 <= windowSize && 0.0 <= errorRatioThreshold <= 1.0 && 1.0 <= openSeconds
      && events == Flags(LastOutcomes(recs, windowSize))
      && openUntil == OpenUntil(recs, windowSize, errorRatioThreshold, openSeconds)
    }

    constructor (windowSize: int, errorRatioThreshold: real, openSeconds: real)
      ensures Valid() && recs == []
      ensures this.windowSize == Max(5, windowSize) && this.openSeconds == MaxReal(1.0, openSeconds)
      ensures 0.0 <= errorRatioThreshold <= 1.0 ==> this.errorRatioThreshold == errorRatioThreshold
    {
      this.windowSize, this.openSeconds := Max(5, windowSize), MaxReal(1.0, openSeconds);
      this.errorRatioThreshold := MaxReal(0.0, if errorRatioThreshold < 1.0 then errorRatioThreshold else 1.0);
      events, openUntil, recs := [], 0.0, [];
    }

    predicate IsOpen(now: real)
      reads this
    {
      now < openUntil
    }

    method Record(ok: bool, now: real)
      requires Valid()
      modifies this
      ensures Valid() && recs == old(recs) + [Rec(ok, now)]
    {
      RingPush(recs, Rec(ok, now), windowSize);
      OpenUntilSnoc(recs, Rec(ok, now), windowSize, errorRatioThreshold, openSeconds);
      events := (if |events| < windowSize then events else events[1..]) + [if ok then 0 else 1];
      recs := recs + [Rec(ok, now)];
      SumOfFlags(LastOutcomes(recs, windowSize));
      if !ok && ErrorRatio() >= errorRatioThreshold && |events| >= (if windowSize < 10 then windowSize else 10) {
        openUntil := now + openSeconds;
      }
    }

    function ErrorRatio(): real
      reads this
    {
      if events == [] then 0.0 else Sum(events) as real / |events| as real
    }
  }

  // One call

  datatype Outcome = Succeeded | Failed | Cancelled

  /** What one invocation of the wrapped function meets: its outcome (a timeout is a failure), and
      the clock when it is recorded and when the breaker is looked at afterwards. */
  datatype Invocation = Invocation(outcome: Outcome, recordAt: real, checkAt: real)

  datatype CallResult = CircuitOpen | Returned | CallFailed | CallCancelled

  /** What the breaker records of these invocations: all but a cancelled one. */
  function Recorded(trace: seq<Invocation>): (r: seq<Rec>)
  {
    if trace == [] then []
    else
      var last := trace[|trace| - 1];
      Recorded(trace[..|trace| - 1]) + if last.outcome == Cancelled then []
        else [Rec(last.outcome == Succeeded, last.recordAt)]
  }

  /** Each invocation has been recorded, in order, except a last one that was cancelled. */
  ghost predicate RecordedAs(trace: seq<Invocation>, recs: seq<Rec>)
  {
    && |recs| == |trace| - (if trace != [] && trace[|trace| - 1].outcome == Cancelled then 1 else 0)
    && forall i :: 0 <= i < |recs| ==> recs[i] == Rec(trace[i].outcome == Succeeded, trace[i].recordAt)
  }

  lemma {:induction false} RecordedMeans(trace: seq<Invocation>)
    requires forall i :: 0 <= i < |trace| - 1 ==> trace[i].outcome != Cancelled
    ensures RecordedAs(trace, Recorded(trace))
  {
    if trace != [] { RecordedMeans(trace[..|trace| - 1]); }
  }

  ghost predicate AsMet(trace: seq<Invocation>, env: nat -> Invocation)
  {
    forall i :: 0 <= i < |trace| ==> MetAt(trace, env, i)
  }

  lemma MetSnoc(trace: seq<Invocation>, x: Invocation, env: nat -> Invocation)
    requires AsMet(trace, env) && x == env(|trace|)
    ensures AsMet(trace + [x], env)
    ensures Recorded(trace + [x]) == Recorded(trace) + if x.outcome == Cancelled then []
            else [Rec(x.outcome == Succeeded, x.recordAt)]
  {
    assert (trace + [x])[..|trace|] == trace;
    forall i | 0 <= i < |trace + [x]| ensures MetAt(trace + [x], env, i) {
      if i < |trace| { assert MetAt(trace, env, i); }
    }
  }

  ghost predicate MetAt(trace: seq<Invocation>, env: nat -> Invocation, i: nat)
    requires i < |trace|
  {
    trace[i] == env(i)
  }

  class RpcCaller {
    const retries: int
    const circuit: RpcCircuitBreaker

    constructor (retries: int, circuit: RpcCircuitBreaker)
      ensures this.retries == Max(0, retries) && this.circuit == circuit
    {
      this.retries, this.circuit := Max(0, retries), circuit;
    }

    /** The last of these invocations, the first of a call that started when the breaker had recorded
        `recs`, failed and left the breaker closed. */
    ghost predicate MayGoOn(recs: seq<Rec>, trace: seq<Invocation>)
      requires trace != [] && 0 <= circuit.windowSize
    {
      var last := trace[|trace| - 1];
      && last.outcome == Failed
      && OpenUntil(recs + Recorded(trace), circuit.windowSize, circuit.errorRatioThreshold, circuit.openSeconds)
         <= last.checkAt
    }

    ghost predicate WentOnAt(recs: seq<Rec>, trace: seq<Invocation>, i: nat)
      requires i < |trace| && 0 <= circuit.windowSize
    {
      MayGoOn(recs, trace[..i + 1])
    }

    /** The first `n` invocations were each followed by another. */
    ghost predicate AllWentOn(recs: seq<Rec>, trace: seq<Invocation>, n: int)
      requires n <= |trace| && 0 <= circuit.windowSize
    {
      forall i :: 0 <= i < n ==> WentOnAt(recs, trace, i)
    }

    lemma TraceSnoc(recs: seq<Rec>, trace: seq<Invocation>, x: Invocation)
      requires 0 <= circuit.windowSize && AllWentOn(recs, trace, |trace|)
      ensures AllWentOn(recs, trace + [x], |trace|)
      ensures (trace + [x])[..|trace| + 1] == trace + [x]
    {
      var more := trace + [x];
      forall i | 0 <= i < |trace| ensures WentOnAt(recs, more, i) {
        assert WentOnAt(recs, trace, i);
        assert more[..i + 1] == trace[..i + 1];
      }
    }

    lemma AllButLast(recs: seq<Rec>, trace: seq<Invocation>)
      requires 0 <= circuit.windowSize && trace != []
      requires AllWentOn(recs, trace, |trace| - 1) && MayGoOn(recs, trace)
      ensures AllWentOn(recs, trace, |trace|)
    {
      assert trace[..|trace|] == trace;
    }

    /** `call`: no invocation while the breaker is open on entry; otherwise at most retries + 1, each
        after the first only because the one before failed and left the breaker closed. */
    method Call(entryAt: real, env: nat -> Invocation) returns (r: CallResult, trace: seq<Invocation>)
      requires circuit.Valid() && 0 <= retries
      modifies circuit
      ensures circuit.Valid() && circuit.recs == old(circuit.recs) + Recorded(trace)
      ensures RecordedAs(trace, Recorded(trace))
      ensures AsMet(trace, env)
      ensures r == CircuitOpen <==> old(circuit.IsOpen(entryAt))
      ensures r == CircuitOpen <==> trace == []
      ensures |trace| <= retries + 1
      ensures AllWentOn(old(circuit.recs), trace, |trace| - 1)
      ensures r == Returned <==> trace != [] && trace[|trace| - 1].outcome == Succeeded
      ensures r == CallCancelled <==> trace != [] && trace[|trace| - 1].outcome == Cancelled
      ensures r == CallFailed ==> |trace| == retries + 1 || circuit.IsOpen(trace[|trace| - 1].checkAt)
    {
      trace := [];
      RecordedMeans([]);
      if circuit.IsOpen(entryAt) { return CircuitOpen, []; }
      ghost var recs := circuit.recs;
      var attempt := 0;
      while attempt < retries + 1
        invariant 0 <= attempt <= retries && |trace| == attempt
        invariant circuit.Valid() && circuit.recs == recs + Recorded(trace)
        invariant AsMet(trace, env) && AllWentOn(recs, trace, attempt)
        invariant forall i :: 0 <= i < |trace| ==> trace[i].outcome != Cancelled
      {
        var x := env(attempt);
        TraceSnoc(recs, trace, x);
        MetSnoc(trace, x, env);
        trace := trace + [x];
        RecordedMeans(trace);
        match x.outcome
        case Succeeded =>
          circuit.Record(true, x.recordAt);
          assert circuit.recs == recs + Recorded(trace);
          return Returned, trace;
        case Cancelled =>
          return CallCancelled, trace;
        case Failed =>
          circuit.Record(false, x.recordAt);
          assert circuit.recs == recs + Recorded(trace);
          if attempt < retries && !circuit.IsOpen(x.checkAt) {
            assert MayGoOn(recs, trace);
            AllButLast(recs, trace);
            attempt := attempt + 1;
            continue;
          }
          return CallFailed, trace;
      }
      assert false;
    }

    /** A breaker that has tripped and seen no success since is probed by one invocation a call: if
        that fails, the call is over, unless open_seconds pass before the breaker is looked at. */
    lemma OneFailingProbe(recs: seq<Rec>, since: seq<Rec>, trace: seq<Invocation>)
      requires 5 <= circuit.windowSize && AllFailed(since)
      requires Trips(LastOutcomes(recs, circuit.windowSize), circuit.windowSize, circuit.errorRatioThreshold)
      requires AllWentOn(recs + since, trace, |trace| - 1)
      requires trace != [] && trace[0].outcome == Failed
      requires trace[0].checkAt < trace[0].recordAt + circuit.openSeconds
      ensures |trace| == 1
    {
      var more := since + [Rec(false, trace[0].recordAt)];
      OpenAfterFailures(recs, more, circuit.windowSize, circuit.errorRatioThreshold, circuit.openSeconds);
      assert trace[..1] == [trace[0]] && [trace[0]][..0] == [];
      assert Recorded([trace[0]]) == Recorded([]) + [Rec(false, trace[0].recordAt)];
      assert recs + since + Recorded(trace[..1]) == recs + more;
      assert !WentOnAt(recs + since, trace, 0);
    }
  }
}
