/** The opportunity funnel of core/orchestrator.py with the gates of core/risk_gates.py. */
module Orchestration {
  import opened BotStates
  import opened Numbers
  import opened SortedSets
  import opened Sizing

  datatype Quote = Quote(feeUsd: real, expectedOut: int, minOut: int)

  /** `arb` says that the type is xarb or triarb, `hasTokens` that both token constraints are set. */
  datatype Opportunity = Opportunity(id: nat, edgeBps: real, confidence: real, sizes: seq<int>, hasTokens: bool,
    arb: bool)

  datatype Reason =
    | KillSwitch | NotTrading
    | EdgeBelowThreshold | ConfidenceBelowThreshold | MissingSizes | InvalidSizes | MissingTokens
    | NoViableRoute | ProfitBelowThreshold | BuildFailed | FlashloanProfitBelowThreshold | SimFailed

  /** A built transaction: the size it was built for, and what was put around it. */
  datatype Tx = Tx(size: int, wrapped: bool, attached: bool)

  datatype Plan = Plan(amountIn: int, quote: Quote, expectedProfitUsd: real, flashloanUsed: bool, flashloanFeeUsd: real)

  /** `Escaped`: an exception of the router or of the simulation left `process`. */
  datatype Decision = QueueEmpty | Rejected(reason: Reason) | Ok(plan: Plan, executed: bool) | Escaped

  datatype Simulation = SimRaises | SimResult(ok: bool)

  /** What one call of `process` meets outside: the operator file, the router's quotes, and how each
      callback ends. `spaced` is the list that `log_spaced_sizes` gives. */
  datatype World = World(
    operator: OperatorState, mode: Mode, routerRaises: bool, quotes: int -> Option<Quote>, spaced: seq<int>,
    buildOk: bool, arbPlanOk: bool, wrapOk: bool, attachOk: bool, recordOk: bool,
    simulation: Simulation, execute: Option<bool>)

  datatype Config = Config(
    minEdgeBps: real, minConfidence: real, minProfitEstUsd: real, minProfitAfterCost: real, cost: CostModel,
    providerFeeBps: Option<real>, arbStrategy: bool, inventoryUsd: real, flashloanMinSize: real,
    flashloanGasUsd: real, executeCb: bool)
  {
    function Threshold(): real { MaxReal(minProfitAfterCost, minProfitEstUsd) }

    /** `operator_gate`, then `cheap_opportunity_gate` */
    function GateReason(operator: OperatorState, opp: Opportunity): Option<Reason>
    {
      if operator.killSwitch then Some(KillSwitch)
      else if !operator.trading then Some(NotTrading)
      else if opp.edgeBps < minEdgeBps then Some(EdgeBelowThreshold)
      else if opp.confidence < minConfidence then Some(ConfidenceBelowThreshold)
      else if opp.sizes == [] then Some(MissingSizes)
      else if exists s :: s in opp.sizes && s <= 0 then Some(InvalidSizes)
      else if !opp.hasTokens then Some(MissingTokens)
      else None
    }

    function LoanFee(sizeUsd: real): real
      requires providerFeeBps.Some?
    {
      sizeUsd * MaxReal(0.0, providerFeeBps.value) / 10000.0 + MaxReal(0.0, flashloanGasUsd)
    }

    /** `_should_use_flashloan` */
    function ShouldUseFlashloan(sizeUsd: real, profitUsd: real): (bool, real)
    {
      if providerFeeBps == None then (false, 0.0)
      else if sizeUsd <= MaxReal(0.0, inventoryUsd) then (false, 0.0)
      else if sizeUsd < MaxReal(0.0, flashloanMinSize) then (false, 0.0)
      else (LoanFee(sizeUsd) < profitUsd, LoanFee(sizeUsd))
    }

    /** Net profit of a size under these quotes, as `_score_size` returns it. */
    function NetScore(opp: Opportunity, quotes: int -> Option<Quote>, size: int): Score
    {
      match quotes(size)
      case None => NegInf
      case Some(q) => Fin(cost.NetProfitUsd(size, opp.edgeBps, q.feeUsd))
    }
  }

  // What the configuration means

  /** The profit of this size on its quote, after all costs. */
  ghost function NetOn(cfg: Config, opp: Opportunity, quote: Quote, size: int): real
  {
    cfg.cost.NetProfitUsd(size, opp.edgeBps, quote.feeUsd)
  }

  /** The gates let the opportunity through. */
  ghost predicate GatesPassed(cfg: Config, operator: OperatorState, opp: Opportunity)
  {
    && !operator.killSwitch && operator.trading && cfg.minEdgeBps <= opp.edgeBps && cfg.minConfidence <= opp.confidence
    && opp.sizes != [] && (forall s :: s in opp.sizes ==> 0 < s) && opp.hasTokens
  }

  /** The gate that names this reason is the first that does not. */
  ghost predicate GateFails(cfg: Config, operator: OperatorState, opp: Opportunity, reason: Reason)
  {
    if operator.killSwitch then reason == KillSwitch
    else if !operator.trading then reason == NotTrading
    else match reason
      case EdgeBelowThreshold => opp.edgeBps < cfg.minEdgeBps
      case ConfidenceBelowThreshold => cfg.minEdgeBps <= opp.edgeBps && opp.confidence < cfg.minConfidence
      case MissingSizes => cfg.minEdgeBps <= opp.edgeBps && cfg.minConfidence <= opp.confidence && opp.sizes == []
      case InvalidSizes =>
        && cfg.minEdgeBps <= opp.edgeBps && cfg.minConfidence <= opp.confidence
        && exists s :: s in opp.sizes && s <= 0
      case MissingTokens =>
        && cfg.minEdgeBps <= opp.edgeBps && cfg.minConfidence <= opp.confidence && opp.sizes != []
        && (forall s :: s in opp.sizes ==> 0 < s) && !opp.hasTokens
      case _ => false
  }

  lemma GateMeans(cfg: Config, operator: OperatorState, opp: Opportunity)
    ensures cfg.GateReason(operator, opp) == None <==> GatesPassed(cfg, operator, opp)
    ensures cfg.GateReason(operator, opp).Some? ==> GateFails(cfg, operator, opp, cfg.GateReason(operator, opp).value)
  {
  }

  /** Whether a flashloan is wanted for this size and profit, and what it is expected to cost: only with
      a provider, for a size above the inventory and not below the minimum, and only if the fee is less
      than the profit. None of the parts of the fee is negative. */
  ghost predicate LoanTerms(cfg: Config, sizeUsd: int, profitUsd: real, want: bool, fee: real)
  {
    var size := sizeUsd as real;
    if cfg.providerFeeBps == None || size <= 0.0 || size <= cfg.inventoryUsd || size < cfg.flashloanMinSize then
      !want && fee == 0.0
    else
      var bps := if cfg.providerFeeBps.value < 0.0 then 0.0 else cfg.providerFeeBps.value;
      var gas := if cfg.flashloanGasUsd < 0.0 then 0.0 else cfg.flashloanGasUsd;
      fee == size * bps / 10_000.0 + gas && (want <==> fee < profitUsd)
  }

  lemma LoanMeans(cfg: Config, size: int, profitUsd: real)
    ensures var (want, fee) := cfg.ShouldUseFlashloan(size as real, profitUsd);
            LoanTerms(cfg, size, profitUsd, want, fee)
  {
  }

  /** The profit does not reach both minima. */
  ghost predicate BelowMinima(cfg: Config, profitUsd: real)
  {
    profitUsd < cfg.minProfitAfterCost || profitUsd < cfg.minProfitEstUsd
  }

  lemma ThresholdMeans(cfg: Config, profitUsd: real)
    ensures profitUsd < cfg.Threshold() <==> BelowMinima(cfg, profitUsd)
  {
  }

  // The queue

  datatype Item = Item(priority: real, at: real, opp: Opportunity)

  /** Higher priority first, and among equals the earlier one. */
  predicate Ahead(a: Item, b: Item)
  {
    a.priority > b.priority || (a.priority == b.priority && a.at < b.at)
  }

  /** The first has the higher priority, or the same and was enqueued no later. */
  ghost predicate NoLater(x: Item, y: Item)
  {
    y.priority < x.priority || (y.priority == x.priority && x.at <= y.at)
  }

  ghost predicate InOrderAt(q: seq<Item>, i: nat, j: nat)
    requires i < j < |q|
  {
    !Ahead(q[j], q[i])
  }

  ghost predicate Ordered(q: seq<Item>)
  {
    forall i: nat, j: nat :: i < j < |q| ==> InOrderAt(q, i, j)
  }

  /** `heappush`: before the first item that the new one is ahead of. */
  function Push(q: seq<Item>, x: Item): (r: seq<Item>)
    ensures |r| == |q| + 1 && multiset(r) == multiset(q) + multiset{x}
  {
    if q == [] || Ahead(x, q[0]) then [x] + q
    else
      assert q == [q[0]] + q[1..];
      [q[0]] + Push(q[1..], x)
  }

  lemma {:induction false} PushOrdered(q: seq<Item>, x: Item)
    requires Ordered(q)
    ensures Ordered(Push(q, x))
  {
    if q == [] {
    } else if Ahead(x, q[0]) {
      var r := [x] + q;
      forall i: nat, j: nat | i < j < |r| ensures InOrderAt(r, i, j) {
        if 0 < i { assert InOrderAt(q, i - 1, j - 1); }
        else { assert j == 1 || InOrderAt(q, 0, j - 1); }
      }
    } else {
      var t := q[1..];
      assert q[0] in q;
      forall i: nat, j: nat | i < j < |t| ensures InOrderAt(t, i, j) { assert InOrderAt(q, i + 1, j + 1); }
      PushOrdered(t, x);
      var p := Push(t, x);
      var r := [q[0]] + p;
      forall i: nat, j: nat | i < j < |r| ensures InOrderAt(r, i, j) {
        if 0 < i {
          assert InOrderAt(p, i - 1, j - 1);
        } else {
          HeadAhead(q, x, p[j - 1]);
        }
      }
    }
  }

  lemma HeadAhead(q: seq<Item>, x: Item, y: Item)
    requires q != [] && Ordered(q) && !Ahead(x, q[0])
    requires y in Push(q[1..], x)
    ensures !Ahead(y, q[0])
  {
    assert y in multiset(Push(q[1..], x));
    if y != x {
      assert y in q[1..];
      var k :| 0 <= k < |q[1..]| && q[1..][k] == y;
      assert InOrderAt(q, 0, k + 1);
    }
  }

  // Executions

  /** One call of `execute_cb`: what the gate saw, and the transaction that passed the simulation. */
  datatype Execution = Execution(operator: OperatorState, mode: Mode, simulated: Option<Tx>, tx: Tx, plan: Plan)

  /** The callback runs only in live mode, with the operator trading and no kill switch, on exactly
      the transaction whose simulation passed, for a plan that meets both profit minima, and with
      the flashloan wrapper if the plan counts on a flashloan. */
  predicate Safe(cfg: Config, x: Execution)
  {
    && x.mode == Live && !x.operator.killSwitch && x.operator.trading
    && x.simulated == Some(x.tx)
    && cfg.minProfitAfterCost <= x.plan.expectedProfitUsd && cfg.minProfitEstUsd <= x.plan.expectedProfitUsd
    && (x.plan.flashloanUsed ==> x.tx.wrapped)
  }

  ghost predicate SafeAt(cfg: Config, log: seq<Execution>, i: nat)
    requires i < |log|
  {
    Safe(cfg, log[i])
  }

  ghost predicate AllSafe(cfg: Config, log: seq<Execution>)
  {
    forall i :: 0 <= i < |log| ==> SafeAt(cfg, log, i)
  }

  lemma AllSafeSnoc(cfg: Config, log: seq<Execution>, x: Execution)
    requires AllSafe(cfg, log) && Safe(cfg, x)
    ensures AllSafe(cfg, log + [x])
  {
    forall i | 0 <= i < |log + [x]| ensures SafeAt(cfg, log + [x], i) {
      if i < |log| { assert SafeAt(cfg, log, i); }
    }
  }

  // Sizing of one opportunity

  /** What sizing hands on: the size of the plan, its profit, and the size whose intent, quote and
      pack the closure kept. */
  datatype Sized = NoRoute | Sized(size: int, profitUsd: real, tracked: int)

  ghost predicate NotBetter(cfg: Config, opp: Opportunity, quotes: int -> Option<Quote>, s: int, profitUsd: real)
  {
    quotes(s).Some? ==> NetOn(cfg, opp, quotes(s).value, s) <= profitUsd
  }

  /** The size is routable and as profitable as any candidate; the tracked size has the same profit
      and is no larger. */
  ghost predicate BestChoice(cfg: Config, opp: Opportunity, quotes: int -> Option<Quote>, z: Sized)
    requires z.Sized?
  {
    && 0 < z.size && quotes(z.size).Some? && quotes(z.tracked).Some?
    && z.profitUsd == NetOn(cfg, opp, quotes(z.size).value, z.size)
    && z.profitUsd == NetOn(cfg, opp, quotes(z.tracked).value, z.tracked)
    && z.tracked <= z.size
    && forall s :: s in opp.sizes ==> NotBetter(cfg, opp, quotes, s, z.profitUsd)
  }

  /** `score` is what `_score_size` returns for this opportunity. */
  ghost predicate Scored(cfg: Config, opp: Opportunity, quotes: int -> Option<Quote>, score: int -> Score)
  {
    forall s: int :: score(s) == cfg.NetScore(opp, quotes, s)
  }

  function ScoreOf(cfg: Config, opp: Opportunity, quotes: int -> Option<Quote>): (score: int -> Score)
    ensures Scored(cfg, opp, quotes, score)
  {
    (s: int) => cfg.NetScore(opp, quotes, s)
  }

  lemma CandidatesCovered(cfg: Config, opp: Opportunity, quotes: int -> Option<Quote>, score: int -> Score,
                          spaced: seq<int>, refined: seq<int>, r: SizingResult, best: Score, first: Option<int>, s: int)
    requires Scored(cfg, opp, quotes, score) && s in opp.sizes && 0 < s
    requires Searched(score, CoarseSizes(opp.sizes, spaced), refined, r)
    requires Tracks(score, CoarseSizes(opp.sizes, spaced) + refined, best, first)
    ensures AtMost(cfg.NetScore(opp, quotes, s), r.bestScore)
  {
    CoarseCoversBases(opp.sizes, spaced, s);
    EvaluatedCovered(score, CoarseSizes(opp.sizes, spaced), refined, r, best, first, s);
    assert score(s) == cfg.NetScore(opp, quotes, s);
  }

  lemma ChoiceIsBest(cfg: Config, opp: Opportunity, quotes: int -> Option<Quote>, score: int -> Score,
                     spaced: seq<int>, refined: seq<int>, r: SizingResult, best: Score, first: Option<int>)
    requires Scored(cfg, opp, quotes, score) && forall s :: s in opp.sizes ==> 0 < s
    requires Searched(score, CoarseSizes(opp.sizes, spaced), refined, r) && forall v :: v in refined ==> 0 < v
    requires Tracks(score, CoarseSizes(opp.sizes, spaced) + refined, best, first)
    ensures 0 < r.bestSize && (first.Some? <==> best.Fin?)
    ensures first.Some? ==> BestChoice(cfg, opp, quotes, Sized(r.bestSize, best.value, first.value))
    ensures first.None? ==> forall s :: s in opp.sizes ==> quotes(s).None?
  {
    var coarse := CoarseSizes(opp.sizes, spaced);
    EvaluatedSizes(score, opp.sizes, spaced, refined, r);
    TrackedProfitIsBestScore(score, coarse, refined, r, best, first);
    forall s | s in opp.sizes ensures AtMost(cfg.NetScore(opp, quotes, s), best) {
      CandidatesCovered(cfg, opp, quotes, score, spaced, refined, r, best, first, s);
    }
    if first.Some? {
      TrackedSizeIff(score, coarse, refined, r, best, first);
      TrackedHasBestScore(score, coarse + refined, best, first);
      assert score(r.bestSize) == cfg.NetScore(opp, quotes, r.bestSize);
      assert score(first.value) == cfg.NetScore(opp, quotes, first.value);
      forall s | s in opp.sizes ensures NotBetter(cfg, opp, quotes, s, best.value) {}
    }
  }

  /** The size is the one that the search over the candidates and these spaced sizes finds, with a
      refinement of five sizes within 30% of the middle one; tracked is the first of its best score. */
  ghost predicate BySearch(cfg: Config, opp: Opportunity, quotes: int -> Option<Quote>, spaced: seq<int>, z: Sized)
    requires z.Sized?
  {
    exists middle, coarse, refined, r ::
      && FoundBy(ScoreOf(cfg, opp, quotes), opp.sizes, spaced, 0.30, 5, middle, coarse, refined, r)
      && z.size == r.bestSize
      && FirstOfBest(ScoreOf(cfg, opp, quotes), coarse + refined, r.bestScore, z.tracked)
  }

  ghost predicate FirstOfBest(score: int -> Score, seen: seq<int>, best: Score, first: int)
  {
    exists i: nat ::
      && i < |seen| && seen[i] == first && score(first) == best
      && forall j: nat :: j < i ==> ScoreAt(score, seen, j) != best
  }

  ghost function ScoreAt(score: int -> Score, seen: seq<int>, j: nat): Score
    requires j < |seen|
  {
    score(seen[j])
  }

  lemma TrackedIsFirst(score: int -> Score, seen: seq<int>, best: Score, first: Option<int>)
    requires Tracks(score, seen, best, first) && first.Some?
    ensures FirstOfBest(score, seen, best, first.value)
  {
    var i: nat :| FirstAt(score, seen, i, best) && seen[i] == first.value;
    forall j: nat | j < i ensures ScoreAt(score, seen, j) != best { assert BelowAt(score, seen, j, best); }
  }

  ghost predicate Chosen(cfg: Config, opp: Opportunity, w: World, z: Sized)
    requires z.Sized?
  {
    BestChoice(cfg, opp, w.quotes, z) && BySearch(cfg, opp, w.quotes, w.spaced, z)
  }

  method SizeUp(cfg: Config, opp: Opportunity, quotes: int -> Option<Quote>, spaced: seq<int>) returns (z: Sized)
    requires opp.sizes != [] && forall s :: s in opp.sizes ==> 0 < s
    ensures z.Sized? ==> BestChoice(cfg, opp, quotes, z) && BySearch(cfg, opp, quotes, spaced, z)
    ensures z.NoRoute? ==> forall s :: s in opp.sizes ==> quotes(s).None?
  {
    var scorer := new Scorer(ScoreOf(cfg, opp, quotes));
    HasPositive(opp.sizes);
    assert opp.sizes[0] in opp.sizes;
    var r, middle := SearchBestSize(opp.sizes, spaced, 0.30, 5, scorer);
    z := if r.bestSize <= 0 || scorer.lastSize == None then NoRoute
         else Sized(r.bestSize, scorer.lastProfit.value, scorer.lastSize.value);
    SizingEnds(cfg, opp, quotes, spaced, middle, r, scorer.lastProfit, scorer.lastSize, z);
  }

  /** What the search and the closure leave is the best choice, or there is none. */
  lemma SizingEnds(cfg: Config, opp: Opportunity, quotes: int -> Option<Quote>, spaced: seq<int>, middle: int,
                   r: SizingResult, best: Score, first: Option<int>, z: Sized)
    requires opp.sizes != [] && forall s :: s in opp.sizes ==> 0 < s
    requires var score, coarse := ScoreOf(cfg, opp, quotes), CoarseSizes(opp.sizes, spaced);
             var refined := RefineSizesAround(middle, 0.30, 5);
             && LargestBest(score, Elements(coarse), middle) && Searched(score, coarse, refined, r)
             && Tracks(score, coarse + refined, best, first)
    requires z == if r.bestSize <= 0 || first == None then NoRoute
                  else Sized(r.bestSize, best.value, first.value)
    ensures z.Sized? ==> BestChoice(cfg, opp, quotes, z) && BySearch(cfg, opp, quotes, spaced, z)
    ensures z.NoRoute? ==> forall s :: s in opp.sizes ==> quotes(s).None?
  {
    var score, refined := ScoreOf(cfg, opp, quotes), RefineSizesAround(middle, 0.30, 5);
    ChoiceIsBest(cfg, opp, quotes, score, spaced, refined, r, best, first);
    if z.Sized? { FoundIsBySearch(cfg, opp, quotes, spaced, middle, r, best, first, z); }
  }

  lemma FoundIsBySearch(cfg: Config, opp: Opportunity, quotes: int -> Option<Quote>, spaced: seq<int>, middle: int,
                        r: SizingResult, best: Score, first: Option<int>, z: Sized)
    requires z.Sized? && first.Some? && z.size == r.bestSize && z.tracked == first.value
    requires var score, coarse := ScoreOf(cfg, opp, quotes), CoarseSizes(opp.sizes, spaced);
             var refined := RefineSizesAround(middle, 0.30, 5);
             && LargestBest(score, Elements(coarse), middle) && Searched(score, coarse, refined, r)
             && Tracks(score, coarse + refined, best, first)
    ensures BySearch(cfg, opp, quotes, spaced, z)
  {
    var score, coarse := ScoreOf(cfg, opp, quotes), CoarseSizes(opp.sizes, spaced);
    var refined := RefineSizesAround(middle, 0.30, 5);
    SearchMeans(score, opp.sizes, spaced, 0.30, 5, middle, r);
    TrackedProfitIsBestScore(score, coarse, refined, r, best, first);
    TrackedIsFirst(score, coarse + refined, best, first);
  }

  lemma TrackedHasBestScore(score: int -> Score, seen: seq<int>, best: Score, first: Option<int>)
    requires Tracks(score, seen, best, first) && first.Some?
    ensures score(first.value) == best
  {
    var i :| FirstAt(score, seen, i, best) && seen[i] == first.value;
  }

  // Flashloans

  /** What the flashloan step hands on. */
  datatype Loan = LoanRejected | Loan(used: bool, feeUsd: real, profitUsd: real, tx: Tx)

  /** The flashloan strategy takes part. */
  predicate ByStrategy(cfg: Config, opp: Opportunity) { cfg.arbStrategy && opp.arb }

  /** The wrapper went around the transaction. */
  predicate WrapperBuilt(cfg: Config, opp: Opportunity, w: World)
  {
    (ByStrategy(cfg, opp) ==> w.arbPlanOk) && w.wrapOk
  }

  /** ... and nothing after it raised. */
  predicate LoanCompleted(cfg: Config, opp: Opportunity, w: World)
  {
    WrapperBuilt(cfg, opp, w) && (ByStrategy(cfg, opp) ==> w.attachOk) && w.recordOk
  }

  /** The flashloan part of `process`. The fee comes off the profit exactly if the loan is recorded as
      used; and the transaction is wrapped without that exactly if a step after the wrapper raised. */
  method TryFlashloan(cfg: Config, opp: Opportunity, w: World, size: int, profitUsd: real, built: Tx) returns (l: Loan)
    requires !built.wrapped && !built.attached
    ensures exists want, fee ::
              LoanTerms(cfg, size, profitUsd, want, fee) && LoanEnds(cfg, opp, w, profitUsd, built, want, fee, l)
  {
    LoanMeans(cfg, size, profitUsd);
    ThresholdMeans(cfg, profitUsd - cfg.ShouldUseFlashloan(size as real, profitUsd).1);
    var (want, fee) := cfg.ShouldUseFlashloan(size as real, profitUsd);
    var tx := built;
    if want && cfg.providerFeeBps.Some? {
      var adjusted := profitUsd - fee;
      if adjusted < cfg.Threshold() { return LoanRejected; }
      var strategy := cfg.arbStrategy && opp.arb;
      if strategy && !w.arbPlanOk { return Loan(false, fee, profitUsd, tx); }
      if !w.wrapOk { return Loan(false, fee, profitUsd, tx); }
      tx := tx.(wrapped := true);
      if strategy {
        if !w.attachOk { return Loan(false, fee, profitUsd, tx); }
        tx := tx.(attached := true);
      }
      if !w.recordOk { return Loan(false, fee, profitUsd, tx); }
      return Loan(true, fee, adjusted, tx);
    }
    l := Loan(false, fee, profitUsd, tx);
  }

  /** How the flashloan step ends, for these terms. */
  ghost predicate LoanEnds(cfg: Config, opp: Opportunity, w: World, profitUsd: real, built: Tx, want: bool, fee: real,
                           l: Loan)
  {
    && (l.LoanRejected? <==> want && BelowMinima(cfg, profitUsd - fee))
    && (l.Loan? ==>
          && l.feeUsd == fee && l.tx.size == built.size
          && (l.used <==> want && LoanCompleted(cfg, opp, w))
          && l.profitUsd == (if l.used then profitUsd - fee else profitUsd)
          && (l.tx.wrapped && !l.used <==> want && WrapperBuilt(cfg, opp, w) && !LoanCompleted(cfg, opp, w))
          && (l.used ==> l.tx.wrapped && (l.tx.attached <==> ByStrategy(cfg, opp))))
  }

  // The funnel

  datatype EventKind = SeenEvent | RejectedEvent | SimulatedEvent | ExecutedEvent

  /** A plan handed out with reason "ok" is for the most profitable candidate size or better, states
      its profit with the flashloan fee taken off exactly if a flashloan is used, meets both minima,
      and carries the quote of a size of the same profit that is no larger. */
  ghost predicate Sound(cfg: Config, opp: Opportunity, w: World, p: Plan)
  {
    && cfg.minProfitAfterCost <= p.expectedProfitUsd && cfg.minProfitEstUsd <= p.expectedProfitUsd
    && exists z: Sized :: z.Sized? && Chosen(cfg, opp, w, z) && FromSized(cfg, p, w, z)
  }

  /** The size has no route or does not reach both profit minima. */
  ghost predicate TooLow(cfg: Config, opp: Opportunity, quotes: int -> Option<Quote>, s: int)
  {
    quotes(s).Some? ==> BelowMinima(cfg, NetOn(cfg, opp, quotes(s).value, s))
  }

  ghost predicate FromSized(cfg: Config, p: Plan, w: World, z: Sized)
    requires z.Sized?
  {
    && (exists want :: LoanTerms(cfg, z.size, z.profitUsd, want, p.flashloanFeeUsd) && (p.flashloanUsed ==> want))
    && p.amountIn == z.size && w.quotes(z.tracked) == Some(p.quote)
    && p.expectedProfitUsd == z.profitUsd - if p.flashloanUsed then p.flashloanFeeUsd else 0.0
  }

  /** A call of `execute_cb` for this plan: it saw this world's operator and mode, and got the
      transaction that was built for the tracked size and simulated, wrapped exactly if a flashloan
      was wanted and its wrapper built. */
  ghost predicate ExecutionOf(cfg: Config, opp: Opportunity, w: World, p: Plan, x: Execution)
  {
    && x == Execution(w.operator, w.mode, Some(x.tx), x.tx, p)
    && exists z: Sized ::
         z.Sized? && Chosen(cfg, opp, w, z) && FromSized(cfg, p, w, z) && BuiltFor(cfg, opp, w, z, x.tx)
  }

  ghost predicate BuiltFor(cfg: Config, opp: Opportunity, w: World, z: Sized, tx: Tx)
    requires z.Sized?
  {
    && tx.size == z.tracked
    && exists want, fee ::
         LoanTerms(cfg, z.size, z.profitUsd, want, fee) && (tx.wrapped <==> want && WrapperBuilt(cfg, opp, w))
  }

  /** What one call of `process` adds to the calls of `execute_cb`: one for a plan that goes out in live
      mode with a callback configured, and nothing otherwise. */
  ghost predicate Logged(cfg: Config, opp: Opportunity, w: World, d: Decision, before: seq<Execution>,
                         after: seq<Execution>)
  {
    if d.Ok? && w.mode == Live && cfg.executeCb then
      |after| == |before| + 1 && after[..|before|] == before && ExecutionOf(cfg, opp, w, d.plan, after[|before|])
    else after == before
  }

  /** The loan would cost more than the profit above the threshold allows. */
  ghost predicate LoanTooDear(cfg: Config, z: Sized)
    requires z.Sized?
  {
    exists fee :: LoanTerms(cfg, z.size, z.profitUsd, true, fee) && BelowMinima(cfg, z.profitUsd - fee)
  }

  /** Every rejection and every escape has its cause, so that an opportunity with none is planned. */
  ghost predicate Justified(cfg: Config, opp: Opportunity, w: World, d: Decision)
  {
    match d
    case QueueEmpty => false
    case Ok(_, _) =>
      && GatesPassed(cfg, w.operator, opp) && !w.routerRaises && w.buildOk
      && (w.mode == DryRun || w.simulation == SimResult(true))
    case Escaped => GatesPassed(cfg, w.operator, opp)
      && (w.routerRaises || (w.mode != DryRun && w.simulation == SimRaises))
    case Rejected(reason) =>
      (match reason
       case NoViableRoute => forall s :: s in opp.sizes ==> w.quotes(s).None?
       case ProfitBelowThreshold =>
         exists z: Sized :: z.Sized? && Chosen(cfg, opp, w, z) && BelowMinima(cfg, z.profitUsd)
       case BuildFailed => !w.buildOk
       case FlashloanProfitBelowThreshold =>
         exists z: Sized :: z.Sized? && Chosen(cfg, opp, w, z) && LoanTooDear(cfg, z)
       case SimFailed => w.mode != DryRun && w.simulation == SimResult(false)
       case _ => GateFails(cfg, w.operator, opp, reason))
  }

  function PlanOf(w: World, z: Sized, loan: Loan): Plan
    requires z.Sized? && w.quotes(z.tracked).Some? && loan.Loan?
  {
    Plan(z.size, w.quotes(z.tracked).value, loan.profitUsd, loan.used, loan.feeUsd)
  }

  /** What the flashloan step leaves is a rejection with cause, or the makings of a plan. */
  lemma PlanFromLoan(cfg: Config, opp: Opportunity, w: World, z: Sized, loan: Loan)
    requires z.Sized? && w.quotes(z.tracked).Some? && !BelowMinima(cfg, z.profitUsd)
    requires exists want, fee ::
               && LoanTerms(cfg, z.size, z.profitUsd, want, fee)
               && LoanEnds(cfg, opp, w, z.profitUsd, Tx(z.tracked, false, false), want, fee, loan)
    ensures loan.LoanRejected? ==> LoanTooDear(cfg, z)
    ensures loan.Loan? ==>
              var p := PlanOf(w, z, loan);
              && FromSized(cfg, p, w, z) && BuiltFor(cfg, opp, w, z, loan.tx) && !BelowMinima(cfg, p.expectedProfitUsd)
              && (p.flashloanUsed ==> loan.tx.wrapped)
  {
  }

  class OpportunityOrchestrator {
    const cfg: Config
    var queue: seq<Item>
    var events: seq<EventKind>
    var rejects: seq<Reason>

    // Calls of `process` from outside the queue, calls left by an exception, opportunities taken up
    // but not decided yet, and every call of `execute_cb`
    ghost var direct: nat
    ghost var escaped: nat
    ghost var inHand: nat
    ghost var executions: seq<Execution>

    /** Nothing is lost: what was seen or passed in is queued, in hand, rejected, executed or escaped. */
    ghost predicate Balanced()
      reads this
    {
      && multiset(events)[SeenEvent] + direct
         == |queue| + inHand + multiset(events)[RejectedEvent] + multiset(events)[ExecutedEvent] + escaped
      && |rejects| == multiset(events)[RejectedEvent]
    }

    ghost predicate Valid()
      reads this
    {
      Ordered(queue) && Balanced() && AllSafe(cfg, executions)
    }

    constructor (cfg: Config)
      ensures Valid() && this.cfg == cfg && queue == [] && executions == [] && inHand == 0 && direct == 0
      ensures escaped == 0
    {
      this.cfg := cfg;
      queue, events, rejects, executions := [], [], [], [];
      direct, escaped, inHand := 0, 0, 0;
    }

    /** `enqueue` */
    method Enqueue(x: Item)
      requires Valid()
      modifies this
      ensures Valid() && multiset(queue) == old(multiset(queue)) + multiset{x} && events == old(events) + [SeenEvent]
      ensures unchanged(`executions) && unchanged(`direct) && unchanged(`escaped) && unchanged(`inHand)
      ensures unchanged(`rejects)
    {
      PushOrdered(queue, x);
      queue := Push(queue, x);
      events := events + [SeenEvent];
    }

    /** `_pop`: an item that no other is ahead of. */
    method Pop() returns (x: Option<Item>)
      requires Valid()
      modifies this`queue, this`inHand
      ensures Valid() && (x.None? <==> old(queue) == [])
      ensures x.None? ==> queue == [] && inHand == old(inHand)
      ensures x.Some? ==> inHand == old(inHand) + 1 && old(queue) == [x.value] + queue
      ensures x.Some? ==> forall y :: y in queue ==> NoLater(x.value, y)
    {
      if queue == [] { return None; }
      x := Some(queue[0]);
      var rest := queue[1..];
      forall i: nat, j: nat | i < j < |rest| ensures InOrderAt(rest, i, j) { assert InOrderAt(queue, i + 1, j + 1); }
      forall y | y in rest ensures NoLater(queue[0], y) {
        var k :| 0 <= k < |rest| && rest[k] == y;
        assert InOrderAt(queue, 0, k + 1);
      }
      assert queue == [queue[0]] + rest;
      queue, inHand := rest, inHand + 1;
    }

    /** `_rej` */
    method Reject(reason: Reason) returns (d: Decision)
      requires Valid() && 0 < inHand
      modifies this`events, this`rejects, this`inHand
      ensures Valid() && inHand == old(inHand) - 1
      ensures d == Rejected(reason) && rejects == old(rejects) + [reason] && events == old(events) + [RejectedEvent]
    {
      events, rejects, inHand := events + [RejectedEvent], rejects + [reason], inHand - 1;
      d := Rejected(reason);
    }

    /** The exceptions that `process` does not catch leave the opportunity undecided. */
    method Escape() returns (d: Decision)
      requires Valid() && 0 < inHand
      modifies this`escaped, this`inHand
      ensures Valid() && inHand == old(inHand) - 1 && escaped == old(escaped) + 1 && d == Escaped
    {
      escaped, inHand := escaped + 1, inHand - 1;
      d := Escaped;
    }

    /** `process` */
    method Process(opp: Opportunity, w: World) returns (d: Decision)
      requires Valid() && 0 < inHand
      modifies this
      ensures Valid() && inHand == old(inHand) - 1 && queue == old(queue) && direct == old(direct)
      ensures multiset(events)[SeenEvent] == old(multiset(events)[SeenEvent])
      ensures d != QueueEmpty && escaped == old(escaped) + (if d.Escaped? then 1 else 0)
      ensures !GatesPassed(cfg, w.operator, opp) ==> d.Rejected? && GateFails(cfg, w.operator, opp, d.reason)
      ensures d.Rejected? ==> rejects == old(rejects) + [d.reason]
      ensures Justified(cfg, opp, w, d)
      ensures d == Rejected(ProfitBelowThreshold) ==> forall s :: s in opp.sizes ==> TooLow(cfg, opp, w.quotes, s)
      ensures d.Ok? ==> Sound(cfg, opp, w, d.plan)
      ensures Logged(cfg, opp, w, d, old(executions), executions)
      ensures d.Ok? ==> (d.executed <==> w.mode == Live && cfg.executeCb && w.execute == Some(true))
    {
      GateMeans(cfg, w.operator, opp);
      var gate := cfg.GateReason(w.operator, opp);
      if gate.Some? { d := Reject(gate.value); return; }
      if w.routerRaises { d := Escape(); return; }
      var z := SizeUp(cfg, opp, w.quotes, w.spaced);
      if z.NoRoute? { d := Reject(NoViableRoute); return; }
      d := PlanSized(opp, w, z);
    }

    /** `process` from the profit threshold on. */
    method PlanSized(opp: Opportunity, w: World, z: Sized) returns (d: Decision)
      requires Valid() && 0 < inHand && z.Sized? && Chosen(cfg, opp, w, z)
      requires GatesPassed(cfg, w.operator, opp) && !w.routerRaises
      modifies this
      ensures Valid() && inHand == old(inHand) - 1 && queue == old(queue) && direct == old(direct)
      ensures multiset(events)[SeenEvent] == old(multiset(events)[SeenEvent])
      ensures d != QueueEmpty && escaped == old(escaped) + (if d.Escaped? then 1 else 0)
      ensures d.Rejected? ==> rejects == old(rejects) + [d.reason]
      ensures Justified(cfg, opp, w, d)
      ensures d == Rejected(ProfitBelowThreshold) ==> forall s :: s in opp.sizes ==> TooLow(cfg, opp, w.quotes, s)
      ensures d.Ok? ==> Sound(cfg, opp, w, d.plan)
      ensures Logged(cfg, opp, w, d, old(executions), executions)
      ensures d.Ok? ==> (d.executed <==> w.mode == Live && cfg.executeCb && w.execute == Some(true))
    {
      ThresholdMeans(cfg, z.profitUsd);
      if z.profitUsd < cfg.Threshold() {
        forall s | s in opp.sizes ensures TooLow(cfg, opp, w.quotes, s) {
          assert NotBetter(cfg, opp, w.quotes, s, z.profitUsd);
        }
        d := Reject(ProfitBelowThreshold);
        return;
      }
      if !w.buildOk { d := Reject(BuildFailed); return; }
      var loan := TryFlashloan(cfg, opp, w, z.size, z.profitUsd, Tx(z.tracked, false, false));
      PlanFromLoan(cfg, opp, w, z, loan);
      if loan.LoanRejected? { d := Reject(FlashloanProfitBelowThreshold); return; }
      var plan := PlanOf(w, z, loan);
      d := Finish(w, plan, loan.tx);
    }

    /** The simulation of `process`: what it decides, if it does not let the plan through. */
    method Simulate(w: World) returns (d: Option<Decision>)
      requires Valid() && 0 < inHand
      modifies this`events, this`rejects, this`inHand, this`escaped
      ensures Valid() && inHand == old(inHand) - (if d.Some? then 1 else 0)
      ensures multiset(events)[SeenEvent] == old(multiset(events)[SeenEvent])
      ensures d == if w.mode == DryRun || w.simulation == SimResult(true) then None
                   else Some(if w.simulation == SimRaises then Escaped else Rejected(SimFailed))
      ensures escaped == old(escaped) + (if d == Some(Escaped) then 1 else 0)
      ensures rejects == old(rejects) + (if d == Some(Rejected(SimFailed)) then [SimFailed] else [])
      ensures multiset(events)[SimulatedEvent] ==
              old(multiset(events)[SimulatedEvent]) + if w.mode != DryRun && w.simulation != SimRaises then 1 else 0
    {
      if w.mode == Paper || w.mode == Live {
        if w.simulation == SimRaises {
          var e := Escape();
          return Some(e);
        }
        events := events + [SimulatedEvent];
        if !w.simulation.ok {
          var e := Reject(SimFailed);
          return Some(e);
        }
      }
      d := None;
    }

    /** The call of `execute_cb`, with the transaction that was simulated. */
    method Execute(w: World, plan: Plan, tx: Tx) returns (executed: bool)
      requires Valid() && !w.operator.killSwitch && w.operator.trading && !BelowMinima(cfg, plan.expectedProfitUsd)
      requires (plan.flashloanUsed ==> tx.wrapped) && w.mode == Live && w.simulation == SimResult(true)
      modifies this`executions
      ensures Valid() && executions == old(executions) + [Execution(w.operator, w.mode, Some(tx), tx, plan)]
      ensures executed == (w.execute == Some(true))
    {
      ghost var x := Execution(w.operator, w.mode, Some(tx), tx, plan);
      AllSafeSnoc(cfg, executions, x);
      executions := executions + [x];
      executed := w.execute == Some(true);
    }

    /** Simulation, execution and the events of `process`. */
    method Finish(w: World, plan: Plan, tx: Tx) returns (d: Decision)
      requires Valid() && 0 < inHand
      requires !w.operator.killSwitch && w.operator.trading && !BelowMinima(cfg, plan.expectedProfitUsd)
      requires plan.flashloanUsed ==> tx.wrapped
      modifies this
      ensures Valid() && inHand == old(inHand) - 1 && queue == old(queue) && direct == old(direct)
      ensures multiset(events)[SeenEvent] == old(multiset(events)[SeenEvent])
      ensures d == Ok(plan, w.mode == Live && cfg.executeCb && w.execute == Some(true)) || d == Rejected(SimFailed)
              || d == Escaped
      ensures escaped == old(escaped) + (if d.Escaped? then 1 else 0)
      ensures d.Ok? <==> w.mode == DryRun || w.simulation == SimResult(true)
      ensures d.Escaped? <==> w.mode != DryRun && w.simulation == SimRaises
      ensures multiset(events)[SimulatedEvent] ==
              old(multiset(events)[SimulatedEvent]) + if w.mode != DryRun && w.simulation != SimRaises then 1 else 0
      ensures d.Rejected? ==> rejects == old(rejects) + [d.reason]
      ensures if d.Ok? && w.mode == Live && cfg.executeCb then
                executions == old(executions) + [Execution(w.operator, w.mode, Some(tx), tx, plan)]
              else executions == old(executions)
    {
      var stop := Simulate(w);
      if stop.Some? { return stop.value; }
      var executed := false;
      if w.mode == Live && cfg.executeCb { executed := Execute(w, plan, tx); }
      events, inHand := events + [ExecutedEvent], inHand - 1;
      d := Ok(plan, executed);
    }

    /** `process_next` */
    method ProcessNext(w: World) returns (d: Decision, x: Option<Item>)
      requires Valid()
      modifies this
      ensures Valid() && inHand == old(inHand) && direct == old(direct)
      ensures multiset(events)[SeenEvent] == old(multiset(events)[SeenEvent])
      ensures old(queue) == [] <==> d == QueueEmpty
      ensures old(queue) == [] <==> x.None?
      ensures x.Some? ==> old(queue) == [x.value] + queue && forall y :: y in queue ==> NoLater(x.value, y)
      ensures x.Some? ==>
              Justified(cfg, x.value.opp, w, d) && Logged(cfg, x.value.opp, w, d, old(executions), executions)
      ensures x.None? ==> executions == old(executions)
      ensures d.Ok? ==> x.Some? && Sound(cfg, x.value.opp, w, d.plan)
      ensures escaped == old(escaped) + (if d.Escaped? then 1 else 0)
    {
      x := Pop();
      if x.None? { return QueueEmpty, x; }
      d := Process(x.value.opp, w);
    }

    /** `process` on an opportunity that never was in the queue. */
    method ProcessDirect(opp: Opportunity, w: World) returns (d: Decision)
      requires Valid()
      modifies this
      ensures Valid() && inHand == old(inHand) && direct == old(direct) + 1 && queue == old(queue)
      ensures multiset(events)[SeenEvent] == old(multiset(events)[SeenEvent])
      ensures Justified(cfg, opp, w, d) && Logged(cfg, opp, w, d, old(executions), executions)
      ensures d.Ok? ==> Sound(cfg, opp, w, d.plan)
      ensures escaped == old(escaped) + (if d.Escaped? then 1 else 0)
    {
      direct, inHand := direct + 1, inHand + 1;
      d := Process(opp, w);
    }

    /** Every opportunity seen is queued, rejected or executed exactly if as many calls were left by an
        exception as came from outside the queue: with all work coming through the queue, if none was. */
    lemma FunnelConserved()
      requires Valid() && inHand == 0
      ensures multiset(events)[SeenEvent] == |queue| + multiset(events)[RejectedEvent] + multiset(events)[ExecutedEvent]
              <==> escaped == direct
    {
    }
  }
}
