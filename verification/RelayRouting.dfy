/** Relay selection, retries and circuit breakers of PrivateOrderflowRouter in bot/exec/orderflow.py. */
module RelayRouting {
  import opened BotStates
  import opened Numbers
  import opened SampleWindows
  import opened RuntimeInvariant
  import opened OrderflowTrace
  import opened RouteOrder

  // Circuits

  /** What a circuit was told: a success, or a call that gave up at a time. */
  datatype Mark = Success | GaveUp(at: real)

  /** Calls that gave up since the last success. */
  function Streak(marks: seq<Mark>): (n: nat)
  {
    if marks == [] || marks[|marks| - 1].Success? then 0 else 1 + Streak(marks[..|marks| - 1])
  }

  /** The latest n marks are give-ups, at least one, and there is a success before them or nothing. */
  ghost predicate FailedInARow(marks: seq<Mark>, n: nat)
  {
    && 0 < n <= |marks| && (forall i :: |marks| - n <= i < |marks| ==> marks[i].GaveUp?)
    && (n < |marks| ==> marks[|marks| - n - 1].Success?)
  }

  lemma {:induction false} StreakMeans(marks: seq<Mark>)
    ensures forall n: nat :: FailedInARow(marks, n) <==> 0 < n == Streak(marks)
    ensures Streak(marks) <= |marks|
  {
    if marks != [] && marks[|marks| - 1].GaveUp? {
      var k := |marks| - 1;
      var rest := marks[..k];
      StreakMeans(rest);
      assert forall i :: 0 <= i < k ==> rest[i] == marks[i];
      forall n: nat ensures FailedInARow(marks, n) <==> 0 < n == Streak(marks) {
        if 1 < n <= |marks| { assert FailedInARow(marks, n) <==> FailedInARow(rest, n - 1); }
        if n == 1 { assert FailedInARow(marks, 1) <==> Streak(rest) == 0 by { NoneInARow(rest); } }
      }
    }
  }

  lemma {:induction false} NoneInARow(marks: seq<Mark>)
    ensures Streak(marks) == 0 <==> marks == [] || marks[|marks| - 1].Success?
  {
  }

  class Circuit {
    ghost const relay: Relay
    const failThreshold: int
    const cooldownS: real
    var failCount: int
    var opensAt: real

    // Everything recorded so far
    ghost var marks: seq<Mark>

    /** The count is the current streak of give-ups, and the circuit is armed exactly when the streak
        has reached the threshold, until one cooldown after the latest give-up. */
    ghost predicate Valid()
      reads this
    {
      && failCount == Streak(marks)
      && opensAt == if 0 < failCount && failThreshold <= failCount then marks[|marks| - 1].at + cooldownS else 0.0
    }

    constructor (ghost relay: Relay, failThreshold: int, cooldownS: real)
      ensures Valid() && marks == [] && this.relay == relay
      ensures this.failThreshold == failThreshold && this.cooldownS == cooldownS
    {
      this.relay := relay;
      this.failThreshold, this.cooldownS := failThreshold, cooldownS;
      failCount, opensAt, marks := 0, 0.0, [];
    }

    method Record(ok: bool, now: real)
      requires Valid()
      modifies this
      ensures Valid() && marks == old(marks) + [if ok then Success else GaveUp(now)]
    {
      if ok {
        failCount := 0;
        opensAt := 0.0;
        marks := marks + [Success];
      } else {
        failCount := failCount + 1;
        marks := marks + [GaveUp(now)];
        assert marks[..|marks| - 1] == old(marks);
        if failCount >= failThreshold {
          opensAt := now + cooldownS;
        }
      }
    }

    predicate Open(now: real)
      requires Valid() && 0.0 <= now
      reads this
      ensures Open(now) <==> CoolingOff(marks, failThreshold, cooldownS, now)
      ensures Open(now) <==>
              exists n: nat :: FailedInARow(marks, n) && failThreshold <= n && now < marks[|marks| - 1].at + cooldownS
    {
      StreakMeans(marks);
      assert 0 < Streak(marks) ==> FailedInARow(marks, Streak(marks));
      now < opensAt
    }
  }

  /** The relay has given up on at least `threshold` calls in a row, the latest less than one
      cooldown ago. */
  predicate CoolingOff(marks: seq<Mark>, threshold: int, cooldownS: real, now: real)
  {
    0 < Streak(marks) && threshold <= Streak(marks) && now < marks[|marks| - 1].at + cooldownS
  }

  // One call of the router

  /** The network's answer to one submission, and the clock around it. */
  datatype Answer = Answer(ok: bool, retryable: bool, latencyAt: real, latencyMs: real, resultAt: real, markAt: real)
  {
    function Latency(): Sample<real> { Sample(latencyAt, MaxReal(0.0, latencyMs)) }

    function Result(): Sample<bool> { Sample(resultAt, ok) }
  }

  /** What the call reads on entry: operator file, environment and clock. */
  datatype Entry = Entry(operator: OperatorState, drawdown: real, guard: Guard, gateAt: real)

  /** What one relay's turn meets: the clock when its circuit is looked at, and an answer for each
      submission that might be made. */
  datatype TurnEnv = TurnEnv(checkAt: real, answers: nat -> Answer)

  ghost predicate AnswerTimely(env: nat -> TurnEnv, i: nat, k: nat)
  {
    var a := env(i).answers(k);
    && env(i).checkAt <= a.latencyAt <= a.resultAt <= a.markAt
    && a.markAt <= env(i).answers(k + 1).latencyAt && a.markAt <= env(i + 1).checkAt
  }

  ghost predicate TurnTimely(env: nat -> TurnEnv, i: nat)
  {
    env(i).checkAt <= env(i + 1).checkAt && forall k: nat :: AnswerTimely(env, i, k)
  }

  /** Readings of one non-decreasing clock. */
  ghost predicate RouteTimely(env: nat -> TurnEnv)
  {
    forall i: nat :: TurnTimely(env, i)
  }

  /** One relay's turn: skipped because its circuit was open, or a run of submissions. */
  datatype Turn = Turn(relay: Relay, skipped: bool, run: seq<Answer>)
  {
    predicate Succeeded() { run != [] && run[|run| - 1].ok }

    function Marks(): seq<Mark>
    {
      if run == [] then [] else [if Succeeded() then Success else GaveUp(run[|run| - 1].markAt)]
    }
  }

  /** A run stops at the first success and at the first failure that is not worth retrying, and
      otherwise exactly after the retries are used up. */
  ghost predicate IsRun(run: seq<Answer>, maxRetries: int)
  {
    && |run| <= Max(0, maxRetries + 1)
    && (forall k :: 0 <= k < |run| - 1 ==> RetriedAt(run, k))
    && (|run| < maxRetries + 1 ==> run != [] && (run[|run| - 1].ok || !run[|run| - 1].retryable))
  }

  /** The latency samples of a run. */
  function RunLatencies(run: seq<Answer>): (r: seq<Sample<real>>)
    ensures |r| == |run|
  {
    seq(|run|, i requires 0 <= i < |run| => run[i].Latency())
  }

  ghost predicate RetriedAt(run: seq<Answer>, k: nat)
    requires k < |run|
  {
    !run[k].ok && run[k].retryable
  }

  ghost predicate AsAnswered(run: seq<Answer>, answers: nat -> Answer)
  {
    forall k :: 0 <= k < |run| ==> AnsweredAt(run, answers, k)
  }

  ghost predicate AnsweredAt(run: seq<Answer>, answers: nat -> Answer, k: nat)
    requires k < |run|
  {
    run[k] == answers(k)
  }

  lemma AfterNoRun(past: Past)
    ensures AfterRun(past, []) == past && AfterTurns(past, []) == past
  {
    assert past.rpc + [] == past.rpc && past.tx + [] == past.tx;
  }

  lemma RunSnoc(past: Past, run: seq<Answer>, answers: nat -> Answer)
    requires AsAnswered(run, answers) && forall k :: 0 <= k < |run| ==> RetriedAt(run, k)
    ensures var a, more := answers(|run|), run + [answers(|run|)];
            && AsAnswered(more, answers) && (forall k :: 0 <= k < |run| ==> RetriedAt(more, k))
            && AfterRun(past, more) ==
               Past(AfterRun(past, run).rpc + [a.Latency()], AfterRun(past, run).tx + [a.Result()])
  {
    var a, more := answers(|run|), run + [answers(|run|)];
    forall k | 0 <= k < |more| ensures AnsweredAt(more, answers, k) && (k < |run| ==> RetriedAt(more, k)) {
      if k < |run| { assert AnsweredAt(run, answers, k) && RetriedAt(run, k); }
    }
    assert RunResults(more) == RunResults(run) + [a.Result()]
      && RunLatencies(more) == RunLatencies(run) + [a.Latency()];
    Associative(past.rpc, RunLatencies(run), [a.Latency()]);
    Associative(past.tx, RunResults(run), [a.Result()]);
  }

  function RunResults(run: seq<Answer>): (r: seq<Sample<bool>>)
    ensures |r| == |run|
  {
    seq(|run|, i requires 0 <= i < |run| => run[i].Result())
  }

  /** Every submission of the turns, in order, as the transaction samples it leaves. */
  function TurnResults(turns: seq<Turn>): (r: seq<Sample<bool>>)
  {
    if turns == [] then [] else TurnResults(turns[..|turns| - 1]) + RunResults(turns[|turns| - 1].run)
  }

  /** ... and as the latency samples. */
  function TurnLatencies(turns: seq<Turn>): (r: seq<Sample<real>>)
  {
    if turns == [] then [] else TurnLatencies(turns[..|turns| - 1]) + RunLatencies(turns[|turns| - 1].run)
  }

  /** The sample histories after these turns. */
  function AfterTurns(past: Past, turns: seq<Turn>): Past
  {
    Past(past.rpc + TurnLatencies(turns), past.tx + TurnResults(turns))
  }

  /** The sample histories after this run. */
  function AfterRun(past: Past, run: seq<Answer>): Past
  {
    Past(past.rpc + RunLatencies(run), past.tx + RunResults(run))
  }

  /** Each submission of the run has left one latency sample, not negative, and one result sample, in
      order. */
  ghost predicate SamplesOf(run: seq<Answer>, past: Past, now: Past)
  {
    && |now.rpc| == |past.rpc| + |run| && now.rpc[..|past.rpc|] == past.rpc
    && |now.tx| == |past.tx| + |run| && now.tx[..|past.tx|] == past.tx
    && (forall k :: 0 <= k < |run| ==>
          && now.rpc[|past.rpc| + k].ts == run[k].latencyAt
          && now.rpc[|past.rpc| + k].value == (if run[k].latencyMs < 0.0 then 0.0 else run[k].latencyMs)
          && now.tx[|past.tx| + k] == Sample(run[k].resultAt, run[k].ok))
  }

  lemma AfterRunMeans(past: Past, run: seq<Answer>)
    ensures SamplesOf(run, past, AfterRun(past, run))
  {
  }

  /** The marks a relay's circuit collects during the turns. */
  function MarksFor(turns: seq<Turn>, relay: Relay): (r: seq<Mark>)
  {
    if turns == [] then []
    else
      var last := turns[|turns| - 1];
      MarksFor(turns[..|turns| - 1], relay) + if last.relay == relay then last.Marks() else []
  }

  /** Every circuit has been told, on top of `told`, how its relay's turns ended, and nothing else. */
  ghost predicate ToldBy(told: map<Relay, seq<Mark>>, turns: seq<Turn>, now: map<Relay, seq<Mark>>)
  {
    told.Keys == now.Keys && forall r :: r in told ==> ToldAt(told, turns, now, r)
  }

  ghost predicate ToldAt(told: map<Relay, seq<Mark>>, turns: seq<Turn>, now: map<Relay, seq<Mark>>, r: Relay)
    requires r in told && told.Keys == now.Keys
  {
    now[r] == told[r] + MarksFor(turns, r)
  }

  lemma ToldSnoc(told: map<Relay, seq<Mark>>, turns: seq<Turn>, now: map<Relay, seq<Mark>>, t: Turn)
    requires ToldBy(told, turns, now) && t.relay in now
    ensures ToldBy(told, turns + [t], now[t.relay := now[t.relay] + t.Marks()])
  {
    var later := now[t.relay := now[t.relay] + t.Marks()];
    forall r | r in told ensures ToldAt(told, turns + [t], later, r) {
      assert ToldAt(told, turns, now, r);
      AppendedMarks(turns, t, r);
    }
  }

  lemma ToldOne(was: map<Relay, seq<Mark>>, now: map<Relay, seq<Mark>>, t: Turn)
    requires was.Keys == now.Keys && t.relay in was && now[t.relay] == was[t.relay] + t.Marks()
    requires forall r :: r in was && r != t.relay ==> now[r] == was[r]
    ensures now == was[t.relay := was[t.relay] + t.Marks()]
  {
  }

  lemma AfterTurnsSnoc(past: Past, turns: seq<Turn>, t: Turn)
    ensures AfterTurns(past, turns + [t]) == AfterRun(AfterTurns(past, turns), t.run)
  {
    assert (turns + [t])[..|turns|] == turns;
    Associative(past.rpc, TurnLatencies(turns), RunLatencies(t.run));
    Associative(past.tx, TurnResults(turns), RunResults(t.run));
  }

  lemma AppendedMarks(turns: seq<Turn>, t: Turn, r: Relay)
    ensures MarksFor(turns + [t], r) == MarksFor(turns, r) + if t.relay == r then t.Marks() else []
  {
    assert (turns + [t])[..|turns|] == turns;
  }

  /** The turns go down the sequence, and none after a success. */
  ghost predicate Follows(turns: seq<Turn>, sequence: seq<Relay>)
  {
    |turns| <= |sequence| && forall i :: 0 <= i < |turns| ==> FollowsAt(turns, sequence, i)
  }

  ghost predicate FollowsAt(turns: seq<Turn>, sequence: seq<Relay>, i: nat)
    requires i < |turns| <= |sequence|
  {
    turns[i].relay == sequence[i] && (i + 1 < |turns| ==> !turns[i].Succeeded())
  }

  predicate Won(turns: seq<Turn>)
  {
    turns != [] && turns[|turns| - 1].Succeeded()
  }

  lemma FollowsSnoc(turns: seq<Turn>, t: Turn, sequence: seq<Relay>)
    requires Follows(turns, sequence) && !Won(turns)
    requires |turns| < |sequence| && t.relay == sequence[|turns|]
    ensures Follows(turns + [t], sequence)
  {
    forall i | 0 <= i < |turns + [t]| ensures FollowsAt(turns + [t], sequence, i) {
      if i < |turns| { assert FollowsAt(turns, sequence, i); }
    }
  }

  /** A relay whose turn has not come has not been told anything. */
  lemma {:induction false} NotYet(turns: seq<Turn>, sequence: seq<Relay>, i: nat)
    requires Distinct(sequence) && |turns| <= i < |sequence| && Follows(turns, sequence)
    ensures MarksFor(turns, sequence[i]) == []
  {
    if turns != [] {
      var k := |turns| - 1;
      assert FollowsAt(turns, sequence, k) && Differ(sequence, k, i);
      forall j | 0 <= j < k ensures FollowsAt(turns[..k], sequence, j) { assert FollowsAt(turns, sequence, j); }
      NotYet(turns[..k], sequence, i);
    }
  }

  /** A call tells the circuit of each relay that had a turn how that turn ended, once. */
  lemma {:induction false} MarksOfTurn(turns: seq<Turn>, sequence: seq<Relay>, i: nat)
    requires Distinct(sequence) && Follows(turns, sequence) && i < |turns|
    ensures MarksFor(turns, sequence[i]) == turns[i].Marks()
  {
    var k := |turns| - 1;
    assert FollowsAt(turns, sequence, k);
    forall j | 0 <= j < k ensures FollowsAt(turns[..k], sequence, j) { assert FollowsAt(turns, sequence, j); }
    if i < k {
      assert Differ(sequence, i, k);
      MarksOfTurn(turns[..k], sequence, i);
    } else {
      NotYet(turns[..k], sequence, i);
    }
  }

  lemma {:induction false} NoTurnNoMarks(turns: seq<Turn>, relay: Relay)
    requires forall i :: 0 <= i < |turns| ==> turns[i].relay != relay
    ensures MarksFor(turns, relay) == []
  {
    if turns != [] {
      var k := |turns| - 1;
      assert turns[k].relay != relay;
      forall i | 0 <= i < k ensures turns[..k][i].relay != relay { assert turns[..k][i] == turns[i]; }
      NoTurnNoMarks(turns[..k], relay);
    }
  }

  /** The circuit of a relay whose turn had submissions is told once how the last of them ended; every
      other circuit is told nothing. */
  ghost predicate ToldOnce(was: map<Relay, seq<Mark>>, turns: seq<Turn>, now: map<Relay, seq<Mark>>, r: Relay)
  {
    && r in was && r in now
    && (forall i: nat :: i < |turns| && turns[i].relay == r && turns[i].run != [] ==>
          var last := turns[i].run[|turns[i].run| - 1];
          now[r] == was[r] + [if last.ok then Success else GaveUp(last.markAt)])
    && ((forall i: nat :: i < |turns| && turns[i].relay == r ==> turns[i].run == []) ==> now[r] == was[r])
  }

  lemma ToldMeans(was: map<Relay, seq<Mark>>, turns: seq<Turn>, now: map<Relay, seq<Mark>>, sequence: seq<Relay>,
                  r: Relay)
    requires ToldBy(was, turns, now) && Distinct(sequence) && Follows(turns, sequence) && r in was
    ensures ToldOnce(was, turns, now, r)
  {
    assert ToldAt(was, turns, now, r);
    forall i: nat | i < |turns| && turns[i].relay == r ensures MarksFor(turns, r) == turns[i].Marks() {
      assert FollowsAt(turns, sequence, i);
      MarksOfTurn(turns, sequence, i);
    }
    if forall i: nat :: i < |turns| ==> turns[i].relay != r { NoTurnNoMarks(turns, r); }
  }

  ghost predicate Ran(t: Turn, maxRetries: int)
  {
    t.run == [] || IsRun(t.run, maxRetries)
  }

  /** At most max_retries + 1 submissions for every relay that had a turn. */
  lemma {:induction false} SubmissionBound(turns: seq<Turn>, maxRetries: int, most: nat)
    requires forall i :: 0 <= i < |turns| ==> Ran(turns[i], maxRetries)
    requires most == Max(0, maxRetries + 1)
    ensures |TurnResults(turns)| <= |turns| * most
  {
    if turns != [] {
      var k := |turns| - 1;
      assert Ran(turns[k], maxRetries);
      SubmissionBound(turns[..k], maxRetries, most);
      assert |turns| * most == k * most + most;
    }
  }

  datatype RouteResult =
    | RelayOk(relay: Relay)
    | BlockedByGate
    | BlockedByGuard
    | VirtualFill(mode: Mode)
    | AllRelaysFailed

  class PrivateOrderflowRouter {
    const order: seq<Relay>
    const maxRetries: int
    const circuits: map<Relay, Circuit>
    const inv: RuntimeInvariants
    ghost const boxes: set<Circuit>

    // The process-wide state that the gate overwrites
    var runtimeState: BotState

    ghost predicate Valid()
      reads this, inv, boxes
    {
      && Distinct(order) && inv.Valid()
      && (forall r :: r in order ==> r in circuits)
      && (forall r :: r in circuits ==> CircuitAt(r))
    }

    ghost predicate CircuitAt(r: Relay)
      requires r in circuits
      reads boxes
    {
      circuits[r] in boxes && circuits[r].Valid() && circuits[r].relay == r
    }

    constructor (order: seq<Relay>, maxRetries: int, circuits: map<Relay, Circuit>, inv: RuntimeInvariants,
                 runtimeState: BotState)
      requires Distinct(order) && inv.Valid()
      requires forall r :: r in order ==> r in circuits
      requires forall r :: r in circuits ==> circuits[r].Valid() && circuits[r].relay == r
      ensures Valid() && this.order == order && this.maxRetries == maxRetries && this.circuits == circuits
      ensures this.inv == inv && this.runtimeState == runtimeState
    {
      this.order, this.maxRetries, this.circuits := order, maxRetries, circuits;
      this.inv, this.runtimeState, this.boxes := inv, runtimeState, circuits.Values;
    }

    /** What every circuit has been told so far. */
    ghost function Told(): (m: map<Relay, seq<Mark>>)
      requires Valid()
      reads this, inv, boxes
      ensures m.Keys == circuits.Keys
    {
      map r | r in circuits :: circuits[r].marks
    }

    /** The turn of a relay whose circuit has been told `told` so far. */
    ghost predicate TurnOf(told: map<Relay, seq<Mark>>, t: Turn, env: TurnEnv)
    {
      && t.relay in circuits && t.relay in told
      && (t.skipped <==>
          CoolingOff(told[t.relay], circuits[t.relay].failThreshold, circuits[t.relay].cooldownS, env.checkAt))
      && (if t.skipped then t.run == [] else IsRun(t.run, maxRetries) && AsAnswered(t.run, env.answers))
    }

    /** The i-th turn of a call that started with the circuits told `told`. */
    ghost predicate TurnAt(told: map<Relay, seq<Mark>>, turns: seq<Turn>, env: nat -> TurnEnv, i: nat)
      requires i < |turns|
    {
      TurnOf(told, turns[i], env(i))
    }

    ghost predicate AllTurns(told: map<Relay, seq<Mark>>, turns: seq<Turn>, env: nat -> TurnEnv)
    {
      forall i :: 0 <= i < |turns| ==> TurnAt(told, turns, env, i)
    }

    /** The sample histories so far. */
    ghost function Histories(): Past
      reads inv
    {
      Past(inv.rpcHistory, inv.txHistory)
    }

    /** A call under way: `turns` are its turns so far. */
    ghost predicate Routing(told: map<Relay, seq<Mark>>, past: Past, env: nat -> TurnEnv, turns: seq<Turn>)
      reads this, inv, boxes
    {
      && Valid() && 0.0 <= inv.clock <= env(|turns|).checkAt
      && AllTurns(told, turns, env) && ToldBy(told, turns, Told())
      && Histories() == AfterTurns(past, turns)
    }

    lemma AllTurnsSnoc(told: map<Relay, seq<Mark>>, turns: seq<Turn>, t: Turn, env: nat -> TurnEnv)
      requires AllTurns(told, turns, env) && TurnAt(told, turns + [t], env, |turns|)
      ensures AllTurns(told, turns + [t], env)
    {
      forall j | 0 <= j < |turns + [t]| ensures TurnAt(told, turns + [t], env, j) {
        if j < |turns| { assert TurnAt(told, turns, env, j); }
      }
    }

    /** The two samples of one submission. */
    method Observe(a: Answer)
      requires inv.Valid() && inv.clock <= a.latencyAt <= a.resultAt
      modifies inv
      ensures inv.Valid() && inv.clock == a.resultAt
      ensures Histories() == Past(old(inv.rpcHistory) + [a.Latency()], old(inv.txHistory) + [a.Result()])
    {
      inv.ObserveRpcLatencyMs(a.latencyMs, a.latencyAt);
      inv.ObserveTxResult(a.ok, a.resultAt);
    }

    /** The retry loop of one relay, and what its circuit is told at the end. */
    method RunRelay(relay: Relay, env: nat -> TurnEnv, ghost i: nat, answers: nat -> Answer) returns (run: seq<Answer>)
      requires inv.Valid() && relay in circuits && circuits[relay].Valid() && RouteTimely(env)
      requires answers == env(i).answers
      requires inv.clock <= env(i).checkAt
      modifies inv, circuits[relay]
      ensures inv.Valid() && circuits[relay].Valid() && old(inv.clock) <= inv.clock <= env(i + 1).checkAt
      ensures IsRun(run, maxRetries) && AsAnswered(run, answers)
      ensures circuits[relay].marks == old(circuits[relay].marks) + Turn(relay, false, run).Marks()
      ensures Histories() == AfterRun(old(Histories()), run)
    {
      run := [];
      ghost var past := Histories();
      AfterNoRun(past);
      assert TurnTimely(env, i) && AnswerTimely(env, i, 0);
      var attempt: nat := 0;
      while attempt < maxRetries + 1
        invariant attempt <= Max(0, maxRetries) && |run| == attempt && inv.Valid() && unchanged(circuits[relay])
        invariant old(inv.clock) <= inv.clock <= env(i).answers(attempt).latencyAt && inv.clock <= env(i + 1).checkAt
        invariant AsAnswered(run, answers) && forall k :: 0 <= k < |run| ==> RetriedAt(run, k)
        invariant Histories() == AfterRun(past, run)
      {
        var a := answers(attempt);
        assert AnswerTimely(env, i, attempt);
        Observe(a);
        RunSnoc(past, run, answers);
        run := run + [a];
        if a.ok {
          circuits[relay].Record(true, a.markAt);
          break;
        }
        if a.retryable && attempt < maxRetries {
          attempt := attempt + 1;
          continue;
        } else {
          circuits[relay].Record(false, a.markAt);
          break;
        }
      }
      assert run == [] ==> Turn(relay, false, run).Marks() == [];
    }

    /** One relay's turn: nothing while its circuit is open, else a run of submissions. */
    method ServeRelay(relay: Relay, env: nat -> TurnEnv, ghost i: nat, now: TurnEnv) returns (t: Turn)
      requires Valid() && relay in circuits && RouteTimely(env) && now == env(i)
      requires 0.0 <= inv.clock <= now.checkAt
      modifies inv, boxes
      ensures Valid() && 0.0 <= inv.clock <= env(i + 1).checkAt
      ensures t.relay == relay && TurnOf(old(Told()), t, now)
      ensures Told() == old(Told())[relay := old(Told())[relay] + t.Marks()]
      ensures Histories() == AfterRun(old(Histories()), t.run)
    {
      assert TurnTimely(env, i);
      ghost var was := Told();
      var skip, run := circuits[relay].Open(now.checkAt), [];
      AfterNoRun(Histories());
      if !skip { run := RunRelay(relay, env, i, now.answers); }
      t := Turn(relay, skip, run);
      forall r | r in circuits && r != relay ensures CircuitAt(r) && circuits[r].marks == was[r] {
        assert old(CircuitAt(r)) && old(CircuitAt(relay));
      }
      ToldOne(was, Told(), t);
    }

    /** ... and what a call that is under way has done after it. */
    method TakeTurn(relay: Relay, env: nat -> TurnEnv, turns: seq<Turn>, ghost told: map<Relay, seq<Mark>>,
                    ghost past: Past)
      returns (t: Turn)
      requires relay in circuits && told.Keys == circuits.Keys && Routing(told, past, env, turns)
      requires RouteTimely(env) && MarksFor(turns, relay) == []
      modifies inv, boxes
      ensures t.relay == relay && Routing(told, past, env, turns + [t])
    {
      ghost var now := Told();
      assert ToldAt(told, turns, now, relay) && now[relay] == told[relay];
      t := ServeRelay(relay, env, |turns|, env(|turns|));
      RoutingSnoc(told, past, env, turns, t, now, old(Histories()));
    }

    lemma RoutingSnoc(told: map<Relay, seq<Mark>>, past: Past, env: nat -> TurnEnv, turns: seq<Turn>, t: Turn,
                      now: map<Relay, seq<Mark>>, was: Past)
      requires Valid() && 0.0 <= inv.clock <= env(|turns| + 1).checkAt
      requires AllTurns(told, turns, env) && ToldBy(told, turns, now) && was == AfterTurns(past, turns)
      requires t.relay in told && now[t.relay] == told[t.relay] && TurnOf(now, t, env(|turns|))
      requires Told() == now[t.relay := now[t.relay] + t.Marks()] && Histories() == AfterRun(was, t.run)
      ensures Routing(told, past, env, turns + [t])
    {
      assert TurnAt(told, turns + [t], env, |turns|);
      AllTurnsSnoc(told, turns, t, env);
      ToldSnoc(told, turns, now, t);
      AfterTurnsSnoc(past, turns, t);
    }

    /** The loop over the relays: it ends with the first success, or after the last relay. */
    method TryRelays(sequence: seq<Relay>, env: nat -> TurnEnv, ghost told: map<Relay, seq<Mark>>, ghost past: Past)
      returns (o: RouteResult, turns: seq<Turn>)
      requires Distinct(sequence) && forall r :: r in sequence ==> r in circuits
      requires told.Keys == circuits.Keys && Routing(told, past, env, []) && RouteTimely(env)
      modifies inv, boxes
      ensures Routing(told, past, env, turns)
      ensures Follows(turns, sequence)
      ensures if Won(turns) then o == RelayOk(turns[|turns| - 1].relay)
              else o == AllRelaysFailed && |turns| == |sequence|
    {
      turns := [];
      var i: nat := 0;
      while i < |sequence|
        invariant i == |turns| <= |sequence| && Routing(told, past, env, turns)
        invariant Follows(turns, sequence) && !Won(turns)
      {
        NotYet(turns, sequence, i);
        var t := TakeTurn(sequence[i], env, turns, told, past);
        FollowsSnoc(turns, t, sequence);
        turns := turns + [t];
        if t.Succeeded() { return RelayOk(t.relay), turns; }
        i := i + 1;
      }
      o := AllRelaysFailed;
    }

    /** The verdict of the health rules on the samples so far. */
    ghost function VerdictAt(entry: Entry): Verdict
      reads inv
    {
      Decide(inv.limits, Recent(inv.rpcHistory), Recent(inv.txHistory), entry.operator, entry.drawdown, entry.gateAt)
    }

    /** The guard is on, and either execution is off or READY is not among the allowed states. */
    ghost predicate GuardStops(guard: Guard)
    {
      guard.enabled && (!guard.executionEnabled || READY !in guard.allowedStates)
    }

    /** What the gates decide; Live is let through by all of them. */
    ghost predicate Gated(v: Verdict, entry: Entry, mode: Mode, o: RouteResult)
    {
      && (o == BlockedByGate <==> v.state != READY)
      && (o == BlockedByGuard <==> v.state == READY && GuardStops(entry.guard))
      && (o.VirtualFill? <==> v.state == READY && !GuardStops(entry.guard) && mode != Live)
      && (o.VirtualFill? ==> o.mode == mode)
    }

    /** The gates of `route_and_submit`: what they answer, if they do not let the call through. */
    method PassGates(entry: Entry, mode: Mode) returns (o: Option<RouteResult>)
      requires inv.Valid() && inv.clock <= entry.gateAt
      modifies this`runtimeState, inv`rpcSamples, inv`txSamples, inv`clock
      ensures inv.Valid() && inv.clock == entry.gateAt && runtimeState == old(VerdictAt(entry)).state
      ensures o.Some? ==> Gated(old(VerdictAt(entry)), entry, mode, o.value)
      ensures o.Some? ==> o.value.BlockedByGate? || o.value.BlockedByGuard? || o.value.VirtualFill?
      ensures o.None? ==> runtimeState == READY && !GuardStops(entry.guard) && mode == Live
    {
      var v := inv.Evaluate(entry.operator, entry.drawdown, entry.gateAt);
      if runtimeState != v.state { runtimeState := v.state; }
      if !(v.state == READY || v.state == TRADING) { return Some(BlockedByGate); }
      if GuardBlocks(entry.guard, runtimeState) { return Some(BlockedByGuard); }
      return if mode != Live then Some(VirtualFill(mode)) else None;
    }

    /** `route_and_submit` */
    method RouteAndSubmit(rules: Rules, entry: Entry, mode: Mode, env: nat -> TurnEnv)
      returns (o: RouteResult, turns: seq<Turn>, sequence: seq<Relay>)
      requires Valid() && RouteTimely(env) && 0.0 <= inv.clock <= entry.gateAt <= env(0).checkAt
      modifies this, inv, boxes
      ensures Valid()
      ensures Gated(old(VerdictAt(entry)), entry, mode, o) && runtimeState == old(VerdictAt(entry)).state
      ensures o.RelayOk? || o.AllRelaysFailed? || turns == []
      ensures Reorders(order, sequence) && Distinct(sequence)
      ensures Sorted(order, rules, sequence)
      ensures Follows(turns, sequence)
      ensures AllTurns(old(Told()), turns, env) && ToldBy(old(Told()), turns, Told())
      ensures forall r :: r in circuits ==> ToldOnce(old(Told()), turns, Told(), r)
      ensures Histories() == AfterTurns(old(Histories()), turns)
      ensures o.RelayOk? <==> Won(turns)
      ensures o.RelayOk? ==> o.relay == turns[|turns| - 1].relay
      ensures o.AllRelaysFailed? ==> |turns| == |order|
    {
      turns := [];
      ghost var told, past := Told(), Histories();
      sequence := ComputeRouteSequence(order, rules);
      forall r | r in told ensures ToldAt(told, [], told, r) {}
      AfterNoRun(past);
      var gated := PassGates(entry, mode);
      assert Routing(told, past, env, []);
      if gated.Some? {
        o := gated.value;
      } else {
        o, turns := TryRelays(sequence, env, told, past);
      }
      forall r | r in circuits ensures ToldOnce(told, turns, Told(), r) { ToldMeans(told, turns, Told(), sequence, r); }
    }
  }
}
