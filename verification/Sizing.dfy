/** Trade sizing: the cost model and the coarse-then-refine search of core/sizing.py, driven through
    the stateful scorer of core/orchestrator.py. */
module Sizing {
  import opened BotStates
  import opened Numbers
  import opened SortedSets

  // Cost model

  datatype CostModel = CostModel(gasCostUsd: real, feeBps: real, flashloanFeeBps: real)
  {
    function NetProfitUsd(amountIn: int, edgeBps: real, quoteFeeUsd: real): (r: real)
    {
      var gross := (Max(0, amountIn) as real) * MaxReal(0.0, edgeBps) / 10000.0;
      var variable_ := (amountIn as real) * MaxReal(0.0, feeBps + flashloanFeeBps) / 10000.0;
      var fixed := MaxReal(0.0, gasCostUsd) + MaxReal(0.0, quoteFeeUsd);
      gross - variable_ - fixed
    }
  }

  /** Edge on the positive part of the amount, less proportional fees and fixed costs, none of which can
      be negative; amounts in hundredths of a percent of the size. */
  lemma NetProfitMeans(c: CostModel, amountIn: int, edgeBps: real, quoteFeeUsd: real)
    ensures var net, fees := c.NetProfitUsd(amountIn, edgeBps, quoteFeeUsd), c.feeBps + c.flashloanFeeBps;
            var gas := if c.gasCostUsd < 0.0 then 0.0 else c.gasCostUsd;
            var quote := if quoteFeeUsd < 0.0 then 0.0 else quoteFeeUsd;
            var earned := if amountIn < 0 || edgeBps < 0.0 then 0.0 else amountIn as real * edgeBps;
            var paid := if fees < 0.0 then 0.0 else amountIn as real * fees;
            net == (earned - paid) / 10_000.0 - gas - quote
  {
  }

  /** With the same quote fee, a larger size is worth no less exactly if the edge covers the fees. */
  lemma LargerPaysIff(c: CostModel, small: int, large: int, edgeBps: real, quoteFeeUsd: real)
    requires 0 <= small < large
    ensures c.NetProfitUsd(small, edgeBps, quoteFeeUsd) <= c.NetProfitUsd(large, edgeBps, quoteFeeUsd)
            <==> MaxReal(0.0, c.feeBps + c.flashloanFeeBps) <= MaxReal(0.0, edgeBps)
  {
    var e, f := MaxReal(0.0, edgeBps), MaxReal(0.0, c.feeBps + c.flashloanFeeBps);
    SlopeSign(small as real, large as real, e, f);
  }

  lemma SlopeSign(a: real, b: real, e: real, f: real)
    requires a < b
    ensures a * e / 10000.0 - a * f / 10000.0 <= b * e / 10000.0 - b * f / 10000.0 <==> f <= e
  {
    var x, y, z, w, d := a * e, a * f, b * e, b * f, (b - a) * (e - f);
    assert z - w - (x - y) == d;
    SignOfProduct(b - a, e - f);
  }

  lemma SignOfProduct(p: real, q: real)
    requires 0.0 < p
    ensures 0.0 <= p * q <==> 0.0 <= q
  {
  }

  // Scores

  /** A float score: minus infinity for a size without a route. */
  datatype Score = NegInf | Fin(value: real)

  predicate Less(a: Score, b: Score)
  {
    b.Fin? && (a.NegInf? || a.value < b.value)
  }

  predicate AtMost(a: Score, b: Score) { !Less(b, a) }

  // Candidate sizes

  /** `_dedupe_positive` */
  function DedupePositive(values: seq<int>): (r: seq<int>)
  {
    Sorted(set v | v in values && 0 < v)
  }

  lemma DedupeAscending(values: seq<int>)
    ensures Ascending(DedupePositive(values))
  {
  }

  lemma DedupeHas(values: seq<int>, v: int)
    ensures v in DedupePositive(values) <==> v in values && 0 < v
  {
    assert v in DedupePositive(values) <==> v in Elements(DedupePositive(values));
  }

  /** `round`: halves go to the even neighbour. */
  function RoundHalfEven(x: real): (n: int)
    ensures x - 0.5 <= n as real <= x + 0.5
    ensures n as real == x - 0.5 || n as real == x + 0.5 ==> n % 2 == 0
  {
    var low := x.Floor;
    var rest := x - low as real;
    if rest < 0.5 then low
    else if rest > 0.5 then low + 1
    else if low % 2 == 0 then low else low + 1
  }

  /** `range(lo, hi, step)` */
  function Range(lo: int, hi: int, step: int): (r: seq<int>)
    requires 0 < step
    ensures forall v :: v in r ==> lo <= v < hi
    ensures lo < hi ==> lo in r
    decreases hi - lo
  {
    if hi <= lo then [] else [lo] + Range(lo + step, hi, step)
  }

  ghost predicate InSteps(lo: int, step: int, k: nat, v: int)
  {
    v == lo + k * step
  }

  lemma {:induction false} RangeHas(lo: int, hi: int, step: int, v: int)
    requires 0 < step
    ensures v in Range(lo, hi, step) <==> v < hi && exists k: nat :: InSteps(lo, step, k, v)
    decreases hi - lo
  {
    if lo < hi {
      RangeHas(lo + step, hi, step, v);
      assert v in Range(lo, hi, step) <==> v == lo || v in Range(lo + step, hi, step);
      if v == lo { assert InSteps(lo, step, 0, v); }
      if v in Range(lo + step, hi, step) { LaterStep(lo, lo + step, step, v); }
      if v != lo && exists k: nat :: InSteps(lo, step, k, v) { EarlierStep(lo, lo + step, step, v); }
    } else {
      forall k: nat | InSteps(lo, step, k, v) ensures hi <= v { MulLe(0, k, step); }
    }
  }

  lemma LaterStep(lo: int, next: int, step: int, v: int)
    requires next == lo + step && exists k: nat :: InSteps(next, step, k, v)
    ensures exists k: nat :: InSteps(lo, step, k, v)
  {
    var k: nat :| InSteps(next, step, k, v);
    OneStep(lo, step, k);
    assert InSteps(lo, step, k + 1, v);
  }

  lemma EarlierStep(lo: int, next: int, step: int, v: int)
    requires next == lo + step && v != lo && exists k: nat :: InSteps(lo, step, k, v)
    ensures exists k: nat :: InSteps(next, step, k, v)
  {
    var k: nat :| InSteps(lo, step, k, v);
    assert k == 0 ==> k * step == 0;
    OneStep(lo, step, k - 1);
    assert InSteps(next, step, k - 1, v);
  }

  lemma OneStep(lo: int, step: int, k: nat)
    ensures lo + (k + 1) * step == lo + step + k * step
  {
  }

  /** `round`, but at least this much. */
  function RoundAtLeast(least: int, x: real): (n: int)
    ensures least <= n
  {
    Max(least, RoundHalfEven(x))
  }

  function LowerEnd(b: int, frac: real): real { b as real * (1.0 - frac) }

  function UpperEnd(b: int, frac: real): real { b as real * (1.0 + frac) }

  function Gap(width: int, points: int): real { width as real / Max(1, Max(3, points) - 1) as real }

  /** The bounds of `refine_sizes_around` for a size of at least one. */
  function RefineLow(b: int, frac: real): int
  {
    RoundAtLeast(1, LowerEnd(b, frac))
  }

  function RefineHigh(b: int, frac: real): int
  {
    RoundAtLeast(RefineLow(b, frac) + 1, UpperEnd(b, frac))
  }

  function RefineStep(width: int, points: int): (step: int)
    ensures 0 < step
  {
    RoundAtLeast(1, Gap(width, points))
  }

  /** The positive ones of `range(lo, hi + 1, step)` */
  function Grid(lo: int, hi: int, step: int): (r: seq<int>)
    requires 0 < step
  {
    DedupePositive(Range(lo, hi + 1, step))
  }

  lemma GridStarts(lo: int, hi: int, step: int)
    requires 1 <= lo <= hi && 0 < step
    ensures Ascending(Grid(lo, hi, step)) && lo in Grid(lo, hi, step)
    ensures forall v :: v in Grid(lo, hi, step) ==> 0 < v
  {
    DedupeHas(Range(lo, hi + 1, step), lo);
    forall v | v in Grid(lo, hi, step) ensures 0 < v { DedupeHas(Range(lo, hi + 1, step), v); }
  }

  datatype Spread = Spread(lo: int, hi: int, step: int)

  /** `lo`, `hi` and `step` of `refine_sizes_around` */
  function SpreadAround(best: int, span: real, points: int): (s: Spread)
    ensures 1 <= s.lo < s.hi && 0 < s.step
  {
    var b, frac := Max(1, best), MaxReal(0.05, span);
    var lo, hi := RefineLow(b, frac), RefineHigh(b, frac);
    Spread(lo, hi, RefineStep(hi - lo, points))
  }

  /** `refine_sizes_around` */
  function RefineSizesAround(best: int, span: real, points: int): (r: seq<int>)
    ensures Ascending(r) && r != [] && forall v :: v in r ==> 0 < v
  {
    var s := SpreadAround(best, span, points);
    GridStarts(s.lo, s.hi, s.step);
    Grid(s.lo, s.hi, s.step)
  }

  /** The refined sizes start at or below the best coarse size and stay within the span around it,
      give or take the rounding. */
  lemma RefinedAround(best: int, span: real, points: int, v: int)
    requires 1 <= best && v in RefineSizesAround(best, span, points)
    ensures var first, s := RefineSizesAround(best, span, points)[0], SpreadAround(best, span, points);
            first == s.lo <= v <= s.hi && first <= best
  {
    var s := SpreadAround(best, span, points);
    GridBounds(s.lo, s.hi, s.step, v);
    SpreadStart(best, span, points);
  }

  lemma SpreadStart(best: int, span: real, points: int)
    requires 1 <= best
    ensures SpreadAround(best, span, points).lo <= best
  {
    LowBelow(best, MaxReal(0.05, span));
  }

  lemma GridBounds(lo: int, hi: int, step: int, v: int)
    requires 1 <= lo <= hi && 0 < step && v in Grid(lo, hi, step)
    ensures Grid(lo, hi, step)[0] == lo <= v <= hi
  {
    var all, r := Range(lo, hi + 1, step), Grid(lo, hi, step);
    GridStarts(lo, hi, step);
    DedupeHas(all, v);
    forall x | x in r ensures lo <= x { DedupeHas(all, x); }
    LeastIsFirst(r, lo);
  }

  /** `n` is `x` rounded to the nearest integer, halves to the even one. */
  ghost predicate Rounded(x: real, n: int)
  {
    x - 0.5 <= n as real <= x + 0.5 && (n as real == x - 0.5 || n as real == x + 0.5 ==> n % 2 == 0)
  }

  /** ... or `least`, if that is larger. */
  ghost predicate RoundedAtLeast(x: real, least: int, n: int)
  {
    exists m :: Rounded(x, m) && n == if m < least then least else m
  }

  /** Lower end, upper end and step around a size, for this span and number of points. */
  ghost predicate Ends(b: int, frac: real, lo: int, hi: int, points: int, step: int)
  {
    && RoundedAtLeast(b as real * (1.0 - frac), 1, lo) && RoundedAtLeast(b as real * (1.0 + frac), lo + 1, hi)
    && RoundedAtLeast((hi - lo) as real / (if points < 3 then 2 else points - 1) as real, 1, step)
  }

  /** The sizes that a refinement around `best` visits: from `lo` to `hi` in steps. The span is at least
      5%, the points at least three, and lower end, width and step at least one. */
  ghost predicate RefinedBy(best: int, span: real, points: int, lo: int, hi: int, step: int)
  {
    var b, frac := if best < 1 then 1 else best, if span < 0.05 then 0.05 else span;
    Ends(b, frac, lo, hi, points, step)
  }

  lemma RoundsAtLeast(x: real, y: real, least: int)
    requires x == y
    ensures RoundedAtLeast(y, least, RoundAtLeast(least, x))
  {
    assert Rounded(y, RoundHalfEven(x));
  }

  lemma LowRounded(b: int, frac: real)
    ensures RoundedAtLeast(b as real * (1.0 - frac), 1, RefineLow(b, frac))
  {
    RoundsAtLeast(LowerEnd(b, frac), b as real * (1.0 - frac), 1);
  }

  lemma HighRounded(b: int, frac: real)
    ensures RoundedAtLeast(b as real * (1.0 + frac), RefineLow(b, frac) + 1, RefineHigh(b, frac))
  {
    RoundsAtLeast(UpperEnd(b, frac), b as real * (1.0 + frac), RefineLow(b, frac) + 1);
  }

  lemma StepRounded(width: int, points: int)
    ensures RoundedAtLeast(width as real / (if points < 3 then 2 else points - 1) as real, 1, RefineStep(width, points))
  {
    RoundsAtLeast(Gap(width, points), width as real / (if points < 3 then 2 else points - 1) as real, 1);
  }

  lemma EndsRounded(b: int, frac: real, lo: int, hi: int, points: int, step: int)
    requires lo == RefineLow(b, frac) && hi == RefineHigh(b, frac) && step == RefineStep(hi - lo, points)
    ensures Ends(b, frac, lo, hi, points, step)
  {
    LowRounded(b, frac);
    HighRounded(b, frac);
    StepRounded(hi - lo, points);
  }

  lemma RefinedFrom(best: int, span: real, points: int, b: int, frac: real, lo: int, hi: int, step: int)
    requires b == Max(1, best) && frac == MaxReal(0.05, span) && Ends(b, frac, lo, hi, points, step)
    ensures RefinedBy(best, span, points, lo, hi, step)
  {
  }

  lemma SpreadMeans(best: int, span: real, points: int)
    ensures var s := SpreadAround(best, span, points); RefinedBy(best, span, points, s.lo, s.hi, s.step)
  {
    var b, frac, s := Max(1, best), MaxReal(0.05, span), SpreadAround(best, span, points);
    EndsRounded(b, frac, s.lo, s.hi, points, s.step);
    RefinedFrom(best, span, points, b, frac, s.lo, s.hi, s.step);
  }

  /** The list holds exactly the sizes on the grid of a refinement around `best`. */
  ghost predicate RefinedSizes(best: int, span: real, points: int, r: seq<int>)
  {
    exists lo, hi, step :: RefinedBy(best, span, points, lo, hi, step) && OnGrid(lo, hi, step, r)
  }

  ghost predicate OnGrid(lo: int, hi: int, step: int, r: seq<int>)
  {
    forall v :: v in r <==> v <= hi && exists k: nat :: InSteps(lo, step, k, v)
  }

  lemma RefinedMeans(best: int, span: real, points: int)
    ensures RefinedSizes(best, span, points, RefineSizesAround(best, span, points))
  {
    SpreadMeans(best, span, points);
    var s := SpreadAround(best, span, points);
    GridIs(s.lo, s.hi, s.step);
    assert RefinedBy(best, span, points, s.lo, s.hi, s.step);
  }

  lemma GridIs(lo: int, hi: int, step: int)
    requires 1 <= lo && 1 <= step
    ensures OnGrid(lo, hi, step, Grid(lo, hi, step))
  {
    forall v ensures v in Grid(lo, hi, step) <==> v <= hi && exists k: nat :: InSteps(lo, step, k, v) {
      DedupeHas(Range(lo, hi + 1, step), v);
      RangeHas(lo, hi + 1, step, v);
      if k: nat :| InSteps(lo, step, k, v) { MulLe(0, k, step); }
    }
  }

  lemma LowBelow(best: int, frac: real)
    requires 1 <= best && 0.0 <= frac
    ensures RefineLow(best, frac) <= best
  {
    var b := best as real;
    assert 0.0 <= b * frac;
    assert b * (1.0 - frac) == b - b * frac;
    RoundsBelow(LowerEnd(best, frac), best);
  }

  lemma RoundsBelow(x: real, n: int)
    requires x <= n as real
    ensures RoundHalfEven(x) <= n
  {
    assert x.Floor as real <= x;
    assert x.Floor <= n;
    if x.Floor == n { assert x == n as real; }
  }

  lemma LeastIsFirst(r: seq<int>, least: int)
    requires Ascending(r) && least in r && forall v :: v in r ==> least <= v
    ensures r[0] == least
  {
    var k :| 0 <= k < |r| && r[k] == least;
    assert r[0] in r;
  }

  // The scorer

  /** What scoring sizes in the order `seen` leaves in the closure: the best score and the first size
      that had it. */
  ghost predicate Tracks(score: int -> Score, seen: seq<int>, best: Score, first: Option<int>)
  {
    && (forall i :: 0 <= i < |seen| ==> CoveredAt(score, seen, i, best))
    && (best.Fin? <==> first.Some?)
    && (first.Some? ==> exists i :: FirstAt(score, seen, i, best) && seen[i] == first.value)
  }

  ghost predicate CoveredAt(score: int -> Score, seen: seq<int>, i: nat, best: Score)
    requires i < |seen|
  {
    AtMost(score(seen[i]), best)
  }

  ghost predicate BelowAt(score: int -> Score, seen: seq<int>, i: nat, best: Score)
    requires i < |seen|
  {
    Less(score(seen[i]), best)
  }

  ghost predicate FirstAt(score: int -> Score, seen: seq<int>, i: int, best: Score)
  {
    0 <= i < |seen| && score(seen[i]) == best && forall j :: 0 <= j < i ==> BelowAt(score, seen, j, best)
  }

  lemma TracksSnoc(score: int -> Score, seen: seq<int>, best: Score, first: Option<int>, size: int)
    requires Tracks(score, seen, best, first)
    ensures Less(best, score(size)) ==> Tracks(score, seen + [size], score(size), Some(size))
    ensures !Less(best, score(size)) ==> Tracks(score, seen + [size], best, first)
  {
    var more := seen + [size];
    forall i | 0 <= i < |seen| ensures CoveredAt(score, more, i, best) {
      assert CoveredAt(score, seen, i, best);
    }
    if Less(best, score(size)) {
      forall i | 0 <= i < |more| ensures CoveredAt(score, more, i, score(size)) {
        assert i < |seen| ==> CoveredAt(score, seen, i, best);
      }
      forall j | 0 <= j < |seen| ensures BelowAt(score, more, j, score(size)) {
        assert CoveredAt(score, seen, j, best);
      }
      assert FirstAt(score, more, |seen|, score(size));
    } else {
      assert CoveredAt(score, more, |seen|, best);
      if first.Some? {
        var i :| FirstAt(score, seen, i, best) && seen[i] == first.value;
        forall j | 0 <= j < i ensures BelowAt(score, more, j, best) { assert BelowAt(score, seen, j, best); }
        assert FirstAt(score, more, i, best);
      }
    }
  }

  /** The closure `_score_size` with its nonlocal variables. The score of a size is fixed. */
  class Scorer {
    const score: int -> Score
    var lastProfit: Score
    var lastSize: Option<int>

    // Every size scored so far
    ghost var seen: seq<int>

    ghost predicate Valid()
      reads this
    {
      Tracks(score, seen, lastProfit, lastSize)
    }

    constructor (score: int -> Score)
      ensures Valid() && this.score == score && seen == []
    {
      this.score := score;
      lastProfit, lastSize, seen := NegInf, None, [];
    }

    method ScoreSize(size: int) returns (net: Score)
      requires Valid()
      modifies this
      ensures Valid() && net == score(size) && seen == old(seen) + [size]
    {
      TracksSnoc(score, seen, lastProfit, lastSize, size);
      net := score(size);
      seen := seen + [size];
      if Less(lastProfit, net) {
        lastProfit := net;
        lastSize := Some(size);
      }
    }

    /** The dict of scores, filled in the order of `sizes`. */
    method ScoreAll(sizes: seq<int>, known: map<int, Score>) returns (scores: map<int, Score>)
      requires Valid() && Scores(known, score)
      modifies this
      ensures Valid() && Scores(scores, score) && scores.Keys == known.Keys + Elements(sizes)
      ensures seen == old(seen) + sizes
    {
      scores := known;
      var i := 0;
      while i < |sizes|
        invariant 0 <= i <= |sizes| && Valid() && Scores(scores, score)
        invariant scores.Keys == known.Keys + Elements(sizes[..i]) && seen == old(seen) + sizes[..i]
      {
        var net := ScoreSize(sizes[i]);
        scores := scores[sizes[i] := net];
        assert sizes[..i + 1] == sizes[..i] + [sizes[i]];
        i := i + 1;
      }
      assert sizes[..i] == sizes;
    }
  }

  ghost predicate Scores(m: map<int, Score>, score: int -> Score)
  {
    forall s :: s in m ==> m[s] == score(s)
  }

  // The search

  /** `best` has the highest score of these sizes, and is the largest that has it. */
  ghost predicate LargestBest(score: int -> Score, sizes: set<int>, best: int)
  {
    best in sizes && forall s :: s in sizes ==> BeatenBy(score, s, best)
  }

  ghost predicate BeatenBy(score: int -> Score, s: int, best: int)
  {
    Less(score(s), score(best)) || (score(s) == score(best) && s <= best)
  }

  /** `max(scores.keys(), key=lambda s: (scores[s], s))` */
  method PickBest(scores: map<int, Score>, sizes: seq<int>, ghost score: int -> Score) returns (best: int)
    requires sizes != [] && Ascending(sizes) && Elements(sizes) == scores.Keys && Scores(scores, score)
    ensures LargestBest(score, scores.Keys, best)
  {
    assert forall k :: 0 <= k < |sizes| ==> sizes[k] in Elements(sizes);
    var at, i := 0, 1;
    while i < |sizes|
      invariant 0 <= at < i <= |sizes|
      invariant forall k :: 0 <= k < i ==> BeatenBy(score, sizes[k], sizes[at])
    {
      assert sizes[i] in scores && sizes[at] in scores && sizes[at] < sizes[i];
      if AtMost(scores[sizes[at]], scores[sizes[i]]) {
        forall k | 0 <= k < i ensures BeatenBy(score, sizes[k], sizes[i]) {
          assert BeatenBy(score, sizes[k], sizes[at]) && sizes[k] < sizes[i];
        }
        at := i;
      }
      i := i + 1;
    }
    best := sizes[at];
    forall s | s in scores.Keys ensures BeatenBy(score, s, best) {
      assert s in Elements(sizes);
    }
  }

  datatype SizingResult = SizingResult(bestSize: int, bestScore: Score, evaluated: seq<int>)

  /** The sizes of the first round. */
  function CoarseSizes(baseSizes: seq<int>, spaced: seq<int>): seq<int>
  {
    DedupePositive(spaced + DedupePositive(baseSizes))
  }

  /** The first round: the positive ones of both lists. */
  lemma CoarseHas(baseSizes: seq<int>, spaced: seq<int>, v: int)
    ensures v in CoarseSizes(baseSizes, spaced) <==> 0 < v && (v in baseSizes || v in spaced)
  {
    DedupeHas(baseSizes, v);
    DedupeHas(spaced + DedupePositive(baseSizes), v);
  }

  /** The result of a search whose rounds scored `coarse` and then `refined`. */
  ghost predicate Searched(score: int -> Score, coarse: seq<int>, refined: seq<int>, r: SizingResult)
  {
    && Ascending(coarse) && Ascending(refined)
    && Ascending(r.evaluated) && Elements(r.evaluated) == Elements(coarse) + Elements(refined)
    && r.bestScore == score(r.bestSize)
    && LargestBest(score, Elements(coarse) + Elements(refined), r.bestSize)
  }

  lemma CoarseCoversBases(baseSizes: seq<int>, spaced: seq<int>, v: int)
    requires v in baseSizes && 0 < v
    ensures v in CoarseSizes(baseSizes, spaced)
  {
    DedupeHas(baseSizes, v);
    DedupeHas(spaced + DedupePositive(baseSizes), v);
  }

  lemma CoarseNonEmpty(baseSizes: seq<int>, spaced: seq<int>)
    requires DedupePositive(baseSizes) != []
    ensures CoarseSizes(baseSizes, spaced) != []
  {
    var v := DedupePositive(baseSizes)[0];
    DedupeHas(baseSizes, v);
    CoarseCoversBases(baseSizes, spaced, v);
  }

  /** All positive base sizes are evaluated, and only positive sizes are. */
  lemma EvaluatedSizes(score: int -> Score, baseSizes: seq<int>, spaced: seq<int>, refined: seq<int>, r: SizingResult)
    requires Searched(score, CoarseSizes(baseSizes, spaced), refined, r) && forall v :: v in refined ==> 0 < v
    ensures forall v :: v in baseSizes && 0 < v ==> v in r.evaluated
    ensures forall v :: v in r.evaluated ==> 0 < v
    ensures 0 < r.bestSize && r.bestSize in r.evaluated
  {
    forall v | v in baseSizes && 0 < v ensures v in r.evaluated {
      CoarseCoversBases(baseSizes, spaced, v);
      assert v in Elements(r.evaluated);
    }
    forall v | v in r.evaluated ensures 0 < v {
      assert v in Elements(r.evaluated);
      DedupeHas(spaced + DedupePositive(baseSizes), v);
    }
    assert r.bestSize in Elements(r.evaluated);
  }

  /** Size `w` with score `b` is to be preferred to size `v` with score `a`, or is the same. */
  predicate Outdone(a: Score, v: int, b: Score, w: int)
  {
    if a.NegInf? then b.Fin? || v <= w else b.Fin? && (a.value < b.value || (a.value == b.value && v <= w))
  }

  ghost predicate TopIn(score: int -> Score, sizes: seq<int>, best: int)
  {
    best in sizes && forall v :: v in sizes ==> OutdoneBy(score, v, best)
  }

  ghost predicate OutdoneBy(score: int -> Score, v: int, best: int)
  {
    Outdone(score(v), v, score(best), best)
  }

  /** The first round has the positive ones of both lists, the second those around its best, and the
      result is the best of both: the largest size with the highest score. */
  ghost predicate FoundBy(score: int -> Score, baseSizes: seq<int>, spaced: seq<int>, span: real, points: int,
                          middle: int, coarse: seq<int>, refined: seq<int>, r: SizingResult)
  {
    && (forall v :: v in coarse <==> 0 < v && (v in baseSizes || v in spaced))
    && TopIn(score, coarse, middle) && RefinedSizes(middle, span, points, refined)
    && (forall v :: v in r.evaluated <==> v in coarse || v in refined)
    && (forall i, j :: 0 <= i < j < |r.evaluated| ==> r.evaluated[i] < r.evaluated[j])
    && TopIn(score, r.evaluated, r.bestSize) && r.bestScore == score(r.bestSize)
  }

  /** ... and these are all the sizes that were scored, in this order. */
  ghost predicate FoundAs(score: int -> Score, baseSizes: seq<int>, spaced: seq<int>, span: real, points: int,
                          middle: int, seen: seq<int>, r: SizingResult)
  {
    exists coarse, refined ::
      seen == coarse + refined && FoundBy(score, baseSizes, spaced, span, points, middle, coarse, refined, r)
  }

  lemma SearchMeans(score: int -> Score, baseSizes: seq<int>, spaced: seq<int>, span: real, points: int, middle: int,
                    r: SizingResult)
    requires var coarse := CoarseSizes(baseSizes, spaced);
             LargestBest(score, Elements(coarse), middle)
               && Searched(score, coarse, RefineSizesAround(middle, span, points), r)
    ensures FoundBy(score, baseSizes, spaced, span, points, middle,
                    CoarseSizes(baseSizes, spaced), RefineSizesAround(middle, span, points), r)
  {
    var coarse, refined := CoarseSizes(baseSizes, spaced), RefineSizesAround(middle, span, points);
    RefinedMeans(middle, span, points);
    forall v ensures v in coarse <==> 0 < v && (v in baseSizes || v in spaced) { CoarseHas(baseSizes, spaced, v); }
    forall v ensures v in r.evaluated <==> v in coarse || v in refined {
      assert v in r.evaluated <==> v in Elements(r.evaluated);
    }
    forall v | v in coarse ensures OutdoneBy(score, v, middle) {
      assert v in Elements(coarse) && BeatenBy(score, v, middle);
    }
    forall v | v in r.evaluated ensures OutdoneBy(score, v, r.bestSize) {
      assert v in Elements(coarse) + Elements(refined) && BeatenBy(score, v, r.bestSize);
    }
    assert r.bestSize in Elements(r.evaluated);
  }

  lemma HasPositive(baseSizes: seq<int>)
    ensures DedupePositive(baseSizes) == [] <==> forall v :: v in baseSizes ==> v <= 0
  {
    forall v | v in baseSizes && 0 < v ensures DedupePositive(baseSizes) != [] { DedupeHas(baseSizes, v); }
    if DedupePositive(baseSizes) != [] { DedupeHas(baseSizes, DedupePositive(baseSizes)[0]); }
  }

  /** `search_best_size`. `spaced` is the list that `log_spaced_sizes` gives. Everything is scored in
      two ascending rounds; the result is the largest size with the highest score of all. */
  method SearchBestSize(baseSizes: seq<int>, spaced: seq<int>, refineSpan: real, refinePoints: int, scorer: Scorer)
    returns (r: SizingResult, ghost middle: int)
    requires scorer.Valid() && scorer.seen == []
    modifies scorer
    ensures scorer.Valid()
    ensures (forall v :: v in baseSizes ==> v <= 0) ==> r == SizingResult(0, NegInf, []) && scorer.seen == []
    ensures (exists v :: v in baseSizes && 0 < v) ==>
              FoundAs(scorer.score, baseSizes, spaced, refineSpan, refinePoints, middle, scorer.seen, r)
    ensures DedupePositive(baseSizes) != [] ==>
              var coarse, refined := CoarseSizes(baseSizes, spaced),
                RefineSizesAround(middle, refineSpan, refinePoints);
              && LargestBest(scorer.score, Elements(coarse), middle)
              && scorer.seen == coarse + refined
              && Searched(scorer.score, coarse, refined, r)
  {
    var bases := DedupePositive(baseSizes);
    middle := 0;
    HasPositive(baseSizes);
    if bases == [] { return SizingResult(0, NegInf, []), 0; }
    var coarse := DedupePositive(spaced + bases);
    CoarseNonEmpty(baseSizes, spaced);
    DedupeAscending(spaced + bases);
    var scores := scorer.ScoreAll(coarse, map[]);
    assert scores.Keys == Elements(coarse) && scorer.seen == coarse;
    var best0 := PickBest(scores, coarse, scorer.score);
    middle := best0;
    var around := RefineSizesAround(best0, refineSpan, refinePoints);
    scores := scorer.ScoreAll(around, scores);
    assert best0 in scores;
    var evaluated := Sorted(scores.Keys);
    assert evaluated != [];
    var best := PickBest(scores, evaluated, scorer.score);
    r := SizingResult(best, scores[best], evaluated);
    SearchMeans(scorer.score, baseSizes, spaced, refineSpan, refinePoints, middle, r);
  }

  // What the closure tracked, against what the search returned

  ghost predicate IsMax(score: int -> Score, s: int, r: SizingResult)
  {
    score(s) == r.bestScore
  }

  /** The round in which a size with the best score was scored first. */
  ghost function DecidingRound(score: int -> Score, coarse: seq<int>, refined: seq<int>, r: SizingResult): seq<int>
  {
    if exists s :: s in coarse && IsMax(score, s, r) then coarse else refined
  }

  lemma EvaluatedCovered(score: int -> Score, coarse: seq<int>, refined: seq<int>, r: SizingResult, best: Score,
                         first: Option<int>, s: int)
    requires Searched(score, coarse, refined, r) && Tracks(score, coarse + refined, best, first)
    requires s in coarse || s in refined
    ensures AtMost(score(s), best) && AtMost(score(s), r.bestScore)
  {
    var seen := coarse + refined;
    assert s in seen;
    var i :| 0 <= i < |seen| && seen[i] == s;
    assert CoveredAt(score, seen, i, best);
    assert s in Elements(coarse) + Elements(refined);
    assert BeatenBy(score, s, r.bestSize);
  }

  /** The tracked profit is the best score. */
  lemma TrackedProfitIsBestScore(score: int -> Score, coarse: seq<int>, refined: seq<int>, r: SizingResult,
                                 best: Score, first: Option<int>)
    requires Searched(score, coarse, refined, r) && Tracks(score, coarse + refined, best, first)
    ensures best == r.bestScore && (first.Some? <==> r.bestScore.Fin?)
  {
    assert r.bestSize in Elements(coarse) + Elements(refined);
    EvaluatedCovered(score, coarse, refined, r, best, first, r.bestSize);
    if first.Some? {
      var i :| FirstAt(score, coarse + refined, i, best) && (coarse + refined)[i] == first.value;
      EvaluatedCovered(score, coarse, refined, r, best, first, first.value);
    }
  }

  /** The tracked size is the least of the deciding round that has the best score. */
  lemma TrackedIsLeast(score: int -> Score, coarse: seq<int>, refined: seq<int>, r: SizingResult, best: Score,
                       first: Option<int>, s: int)
    requires Searched(score, coarse, refined, r) && Tracks(score, coarse + refined, best, first) && first.Some?
    requires s in DecidingRound(score, coarse, refined, r) && IsMax(score, s, r)
    ensures first.value in DecidingRound(score, coarse, refined, r) && IsMax(score, first.value, r)
    ensures first.value <= s
  {
    TrackedProfitIsBestScore(score, coarse, refined, r, best, first);
    var seen, n := coarse + refined, |coarse|;
    var i :| FirstAt(score, seen, i, best) && seen[i] == first.value;
    if exists t :: t in coarse && IsMax(score, t, r) {
      var k :| 0 <= k < n && coarse[k] == s;
      FirstIsFirst(score, seen, i, best, k);
    } else {
      assert i < n ==> coarse[i] in coarse && IsMax(score, coarse[i], r);
      var k :| 0 <= k < |refined| && refined[k] == s;
      FirstIsFirst(score, seen, i, best, n + k);
    }
  }

  lemma FirstIsFirst(score: int -> Score, seen: seq<int>, i: int, best: Score, k: nat)
    requires FirstAt(score, seen, i, best) && k < |seen| && score(seen[k]) == best
    ensures i <= k
  {
    assert !BelowAt(score, seen, k, best);
  }

  /** No size of either round scores higher. */
  ghost predicate Tops(score: int -> Score, coarse: seq<int>, refined: seq<int>, m: int)
  {
    (m in coarse || m in refined) && forall x :: x in coarse || x in refined ==> AtMost(score(x), score(m))
  }

  /** The first round with a top size: the coarse one if it has any. */
  ghost function FirstTopRound(score: int -> Score, coarse: seq<int>, refined: seq<int>): seq<int>
  {
    if exists m :: m in coarse && Tops(score, coarse, refined, m) then coarse else refined
  }

  /** m is the only top size of the first round that has one, and no top size is larger. */
  ghost predicate Unrivalled(score: int -> Score, coarse: seq<int>, refined: seq<int>, m: int)
  {
    && m in FirstTopRound(score, coarse, refined) && Tops(score, coarse, refined, m)
    && forall x :: Tops(score, coarse, refined, x) ==> x <= m && (x in FirstTopRound(score, coarse, refined) ==> x == m)
  }

  lemma TopsAreMax(score: int -> Score, coarse: seq<int>, refined: seq<int>, r: SizingResult, m: int)
    requires Searched(score, coarse, refined, r) && (m in coarse || m in refined)
    ensures Tops(score, coarse, refined, m) <==> IsMax(score, m, r)
    ensures IsMax(score, m, r) ==> m <= r.bestSize
  {
    var all := Elements(coarse) + Elements(refined);
    assert m in all && BeatenBy(score, m, r.bestSize);
    assert r.bestSize in coarse || r.bestSize in refined;
    forall x | x in coarse || x in refined ensures AtMost(score(x), r.bestScore) {
      assert x in all && BeatenBy(score, x, r.bestSize);
    }
  }

  lemma SameRound(score: int -> Score, coarse: seq<int>, refined: seq<int>, r: SizingResult)
    requires Searched(score, coarse, refined, r)
    ensures FirstTopRound(score, coarse, refined) == DecidingRound(score, coarse, refined, r)
  {
    forall m | m in coarse ensures Tops(score, coarse, refined, m) <==> IsMax(score, m, r) {
      TopsAreMax(score, coarse, refined, r, m);
    }
  }

  /** The tracked size never exceeds the returned one. They are equal if and only if some size is the only
      top size of the first round that has one, with no larger top size in the other. */
  lemma TrackedSizeIff(score: int -> Score, coarse: seq<int>, refined: seq<int>, r: SizingResult, best: Score,
                       first: Option<int>)
    requires Searched(score, coarse, refined, r) && Tracks(score, coarse + refined, best, first) && first.Some?
    ensures first.value <= r.bestSize
    ensures first.value == r.bestSize <==> exists m :: Unrivalled(score, coarse, refined, m)
  {
    TrackedProfitIsBestScore(score, coarse, refined, r, best, first);
    SameRound(score, coarse, refined, r);
    var round := DecidingRound(score, coarse, refined, r);
    assert r.bestSize in Elements(coarse) + Elements(refined) && IsMax(score, r.bestSize, r);
    SomeMaxInRound(score, coarse, refined, r);
    var m0 :| m0 in round && IsMax(score, m0, r);
    TrackedIsLeast(score, coarse, refined, r, best, first, m0);
    TopsAreMax(score, coarse, refined, r, first.value);
    TopsAreMax(score, coarse, refined, r, r.bestSize);
    if first.value == r.bestSize {
      forall x | Tops(score, coarse, refined, x) ensures x <= r.bestSize && (x in round ==> x == r.bestSize) {
        TopsAreMax(score, coarse, refined, r, x);
        if x in round { TrackedIsLeast(score, coarse, refined, r, best, first, x); }
      }
      assert Unrivalled(score, coarse, refined, r.bestSize);
    }
    forall m | Unrivalled(score, coarse, refined, m) ensures first.value == r.bestSize {
      TopsAreMax(score, coarse, refined, r, m);
    }
  }

  lemma SomeMaxInRound(score: int -> Score, coarse: seq<int>, refined: seq<int>, r: SizingResult)
    requires Searched(score, coarse, refined, r)
    ensures exists m :: m in DecidingRound(score, coarse, refined, r) && IsMax(score, m, r)
  {
    assert r.bestSize in Elements(coarse) + Elements(refined) && IsMax(score, r.bestSize, r);
    assert r.bestSize in coarse || r.bestSize in refined;
  }

  /** When all sizes score the same, the closure keeps the smallest coarse size and the search
      returns the largest size of all. */
  lemma FlatScores(score: int -> Score, v: real, coarse: seq<int>, refined: seq<int>, r: SizingResult, best: Score,
                   first: Option<int>)
    requires Searched(score, coarse, refined, r) && Tracks(score, coarse + refined, best, first)
    requires coarse != [] && forall s :: s in coarse || s in refined ==> score(s) == Fin(v)
    ensures first == Some(coarse[0])
    ensures forall s :: s in coarse || s in refined ==> s <= r.bestSize
  {
    TrackedProfitIsBestScore(score, coarse, refined, r, best, first);
    assert r.bestSize in Elements(coarse) + Elements(refined);
    assert coarse[0] in coarse && IsMax(score, coarse[0], r);
    TrackedIsLeast(score, coarse, refined, r, best, first, coarse[0]);
    forall s | s in coarse || s in refined ensures s <= r.bestSize {
      assert s in Elements(coarse) + Elements(refined) && BeatenBy(score, s, r.bestSize);
    }
  }
}
