/** Multi-hop quoting of adapters/dex_packs/evm_univ2.py over a fixed snapshot of the pairs,
    and the route string that `quote` writes and `build` reads back. */
module UniV2Quote {
  import opened Numbers
  import opened UniV2Math

  type Token = string

  datatype Pair = Pair(token0: Token, reserve0: int, reserve1: int)

  /** The factory's view of the chain at one block: a pair for each unordered pair of tokens. */
  type Snapshot = map<set<Token>, Pair>

  datatype QuoteError = PairNotFound(tokenIn: Token, tokenOut: Token)

  datatype Result<+T> = Ok(value: T) | Err(error: QuoteError)

  datatype Hop = Hop(reserveIn: int, reserveOut: int)

  datatype Quote = Quote(expectedOut: int, minOut: int, impacts: seq<real>, priceImpactBps: real, routeSummary: string)

  /** Every pair names one of its own two tokens as token0, as the pair contract guarantees. */
  ghost predicate WellFormed(snap: Snapshot)
  {
    forall k :: k in snap ==> snap[k].token0 in k
  }

  /** Reserves oriented for a swap of `a` into `b`; the factory has no pair of a token with itself. */
  function FindHop(snap: Snapshot, a: Token, b: Token): Result<Hop>
  {
    if a == b || {a, b} !in snap then
      Err(PairNotFound(a, b))
    else
      var pair := snap[{a, b}];
      Ok(if pair.token0 == a then Hop(pair.reserve0, pair.reserve1) else Hop(pair.reserve1, pair.reserve0))
  }

  lemma HopsMirror(snap: Snapshot, a: Token, b: Token)
    requires WellFormed(snap)
    ensures FindHop(snap, a, b).Ok? == FindHop(snap, b, a).Ok?
    ensures FindHop(snap, a, b).Ok? ==>
              var h := FindHop(snap, a, b).value;
              FindHop(snap, b, a) == Ok(Hop(h.reserveOut, h.reserveIn))
  {
    assert {a, b} == {b, a};
  }

  /** Price impact of one hop in basis points, against the reserve ratio. */
  function ImpactBps(amountIn: int, h: Hop, out: int): (bps: real)
  {
    ImpactOf((amountIn * h.reserveOut) as real, Max(1, h.reserveIn) as real, out as real)
  }

  function ImpactOf(ideal: real, scale: real, out: real): (bps: real)
    requires 1.0 <= scale
  {
    var noImpact := ideal / scale;
    if noImpact <= 0.0 then 0.0 else
      var bps := (1.0 - out / noImpact) * 10_000.0;
      if bps < 0.0 then 0.0 else bps
  }

  function MinOutFromSlippage(expectedOut: int, slippageBps: int): (m: int)
  {
    if expectedOut <= 0 then 0 else Max(1, expectedOut * (10_000 - Max(0, slippageBps)) / 10_000)
  }

  /** The floor offered on chain never exceeds the quote, and is positive whenever the quote is;
      a tolerance of at least 100% asks for a single unit. */
  lemma MinOutWithinQuote(expectedOut: int, slippageBps: int)
    ensures var m := MinOutFromSlippage(expectedOut, slippageBps);
            if expectedOut <= 0 then m == 0 else 1 <= m <= expectedOut
    ensures 0 < expectedOut && 10_000 <= slippageBps ==> MinOutFromSlippage(expectedOut, slippageBps) == 1
    ensures slippageBps <= 0 < expectedOut ==> MinOutFromSlippage(expectedOut, slippageBps) == expectedOut
    ensures 0 < expectedOut && 0 <= slippageBps <= 10_000 ==>
              var m, kept := MinOutFromSlippage(expectedOut, slippageBps), expectedOut * (10_000 - slippageBps);
              kept < 10_000 * (m + 1) && (m == 1 || 10_000 * m <= kept)
  {
    if 0 < expectedOut {
      var keep := 10_000 - Max(0, slippageBps);
      MulLe(keep, 10_000, expectedOut);
      if keep <= 0 { MulLe(keep, 0, expectedOut); }
    }
  }

  /** Folding the swap along a path on a fixed snapshot. */
  function QuotePath(snap: Snapshot, path: seq<Token>, amount: int, fee: int): (r: Result<int>)
  {
    if |path| < 2 then
      Ok(amount)
    else
      match FindHop(snap, path[0], path[1])
      case Err(e) => Err(e)
      case Ok(h) => QuotePath(snap, path[1..], CalcAmountOut(amount, h.reserveIn, h.reserveOut, fee), fee)
  }

  /** The impact of each hop of a path that can be quoted. */
  function ImpactsAlong(snap: Snapshot, path: seq<Token>, amount: int, fee: nat): (r: seq<real>)
    decreases |path|
  {
    if |path| < 2 then [] else
      match FindHop(snap, path[0], path[1])
      case Err(_) => []
      case Ok(h) =>
        var out := CalcAmountOut(amount, h.reserveIn, h.reserveOut, fee);
        [ImpactBps(amount, h, out)] + ImpactsAlong(snap, path[1..], out, fee)
  }

  function Total(s: seq<real>): (t: real)
  {
    if s == [] then 0.0 else Total(s[..|s| - 1]) + s[|s| - 1]
  }

  lemma {:induction false} TotalConcat(s: seq<real>, t: seq<real>)
    ensures Total([]) == 0.0 && Total(s + t) == Total(s) + Total(t)
    ensures |s| == 1 ==> Total(s) == s[0]
  {
    if t == [] {
      assert s + t == s;
    } else {
      assert (s + t)[..|s + t| - 1] == s + t[..|t| - 1];
      TotalConcat(s, t[..|t| - 1]);
    }
    if |s| == 1 { assert s[..0] == []; }
  }

  function Average(s: seq<real>): (a: real)
  {
    Total(s) / Max(1, |s|) as real
  }

  /** This hop is quoted on a pair: the reserves are taken in the order in which the pair names the two
      tokens, `out` is the greatest whole amount that the fee-adjusted product allows, and `bps` is the
      shortfall of `out` against the ratio of the reserves, or zero. */
  ghost predicate HopQuoted(snap: Snapshot, a: Token, b: Token, fee: int, x: int, out: int, bps: real)
  {
    && a != b && {a, b} in snap
    && var pair := snap[{a, b}];
       var forward := pair.token0 == a;
       var u := x * (10_000 - fee);
       var rin := if forward then pair.reserve0 else pair.reserve1;
       var rout := if forward then pair.reserve1 else pair.reserve0;
       && (if 0 < x && 0 < rin && 0 < rout && fee < 10_000 then
             0 <= out < rout && out * (rin * 10_000 + u) <= u * rout < (out + 1) * (rin * 10_000 + u)
           else out == 0)
       && ImpactIs(x, rin, rout, out, bps)
  }

  /** Without impact, `x` would buy x * rout / rin. */
  ghost predicate ImpactIs(x: int, rin: int, rout: int, out: int, bps: real)
  {
    ShortOf(x * rout, out * if rin < 1 then 1 else rin, bps)
  }

  /** `bps` is how much of `whole` the part `got` falls short by, in basis points, or zero. */
  ghost predicate ShortOf(whole: int, got: int, bps: real)
  {
    if whole <= 0 || whole <= got then bps == 0.0 else bps * whole as real == (whole - got) as real * 10_000.0
  }

  lemma RealProduct(a: int, b: int)
    ensures (a * b) as real == a as real * b as real
  {
  }

  lemma ImpactMeans(x: int, h: Hop, out: int)
    ensures ImpactIs(x, h.reserveIn, h.reserveOut, out, ImpactBps(x, h, out))
  {
    var n, s, bps := x * h.reserveOut, Max(1, h.reserveIn), ImpactBps(x, h, out);
    ImpactFrom(n, s, out, bps);
  }

  lemma ImpactFrom(n: int, s: int, out: int, bps: real)
    requires 1 <= s && bps == ImpactOf(n as real, s as real, out as real)
    ensures ShortOf(n, out * s, bps)
  {
    RealProduct(out, s);
    ShareLost(n as real, s as real, out as real);
  }

  /** 1 - o / (ideal / scale) is (ideal - o * scale) / ideal. */
  lemma ShareLost(ideal: real, scale: real, o: real)
    requires 1.0 <= scale
    ensures ideal / scale <= 0.0 <==> ideal <= 0.0
    ensures 0.0 < ideal ==>
              var bps := (1.0 - o / (ideal / scale)) * 10_000.0;
              bps * ideal == (ideal - o * scale) * 10_000.0 && (bps < 0.0 <==> ideal - o * scale < 0.0)
  {
    var q := ideal / scale;
    assert q * scale == ideal;
    if 0.0 < ideal {
      assert 0.0 < q;
      var z := o / q;
      assert z * q == o;
      assert z * ideal == o * scale;
      assert (1.0 - z) * ideal == ideal - o * scale;
    }
  }

  lemma HopMeans(snap: Snapshot, a: Token, b: Token, fee: nat, x: int)
    ensures FindHop(snap, a, b).Ok? <==> a != b && {a, b} in snap
    ensures FindHop(snap, a, b).Err? ==> FindHop(snap, a, b).error == PairNotFound(a, b)
    ensures FindHop(snap, a, b).Ok? ==>
              var h := FindHop(snap, a, b).value;
              var out := CalcAmountOut(x, h.reserveIn, h.reserveOut, fee);
              HopQuoted(snap, a, b, fee, x, out, ImpactBps(x, h, out))
  {
    if FindHop(snap, a, b).Ok? {
      var h := FindHop(snap, a, b).value;
      OutSpec(x, h.reserveIn, h.reserveOut, fee);
      ImpactMeans(x, h, CalcAmountOut(x, h.reserveIn, h.reserveOut, fee));
    }
  }

  /** The i-th hop of the path turns the i-th amount into the next one. */
  ghost predicate HopAt(snap: Snapshot, path: seq<Token>, fee: int, amounts: seq<int>, impacts: seq<real>, i: nat)
    requires i + 1 < |path| == |amounts| && |impacts| == |path| - 1
  {
    HopQuoted(snap, path[i], path[i + 1], fee, amounts[i], amounts[i + 1], impacts[i])
  }

  /** The amounts along a quoted path, hop by hop. */
  ghost predicate HopByHop(snap: Snapshot, path: seq<Token>, fee: int, amount: int, out: int, amounts: seq<int>,
                           impacts: seq<real>)
    requires path != []
  {
    && |amounts| == |path| && |impacts| == |path| - 1 && amounts[0] == amount && amounts[|path| - 1] == out
    && forall i: nat :: i + 1 < |path| ==> HopAt(snap, path, fee, amounts, impacts, i)
  }

  /** The pair of the i-th hop is missing, and of no hop before. */
  ghost predicate FirstMissing(snap: Snapshot, path: seq<Token>, i: nat)
    requires i + 1 < |path|
  {
    Missing(snap, path, i) && forall j: nat :: j < i ==> !Missing(snap, path, j)
  }

  ghost predicate Missing(snap: Snapshot, path: seq<Token>, i: nat)
    requires i + 1 < |path|
  {
    path[i] == path[i + 1] || {path[i], path[i + 1]} !in snap
  }

  /** A quote along a path is the hops in a row, each on the amount the hop before it paid; and it fails
      with the first hop that has no pair. */
  lemma {:induction false} QuoteIsHopByHop(snap: Snapshot, path: seq<Token>, amount: int, fee: nat)
    returns (amounts: seq<int>)
    requires path != []
    ensures var r := QuotePath(snap, path, amount, fee);
            && (r.Ok? ==> HopByHop(snap, path, fee, amount, r.value, amounts, ImpactsAlong(snap, path, amount, fee)))
            && (r.Err? ==>
                exists i: nat :: i + 1 < |path| && FirstMissing(snap, path, i)
                  && r.error == PairNotFound(path[i], path[i + 1]))
    decreases |path|
  {
    amounts := [amount];
    if 2 <= |path| {
      HopMeans(snap, path[0], path[1], fee, amount);
      var hop := FindHop(snap, path[0], path[1]);
      if hop.Err? {
        assert FirstMissing(snap, path, 0);
      } else {
        var out := CalcAmountOut(amount, hop.value.reserveIn, hop.value.reserveOut, fee);
        var rest := QuoteIsHopByHop(snap, path[1..], out, fee);
        amounts := [amount] + rest;
        var r := QuotePath(snap, path, amount, fee);
        assert !Missing(snap, path, 0);
        if r.Ok? {
          var impacts := ImpactsAlong(snap, path, amount, fee);
          var later := ImpactsAlong(snap, path[1..], out, fee);
          forall i: nat | i + 1 < |path| ensures HopAt(snap, path, fee, amounts, impacts, i) {
            if 0 < i { assert HopAt(snap, path[1..], fee, rest, later, i - 1); }
          }
        } else {
          var i: nat :| i + 1 < |path[1..]| && FirstMissing(snap, path[1..], i)
            && r.error == PairNotFound(path[1..][i], path[1..][i + 1]);
          assert Missing(snap, path[1..], i);
          forall j: nat | j < i + 1 ensures !Missing(snap, path, j) {
            if 0 < j { assert !Missing(snap, path[1..], j - 1); }
          }
          assert FirstMissing(snap, path, i + 1);
        }
      }
    }
  }

  ghost predicate AverageIs(s: seq<real>, a: real)
  {
    if s == [] then a == 0.0 else a * |s| as real == Total(s)
  }

  lemma AverageMeans(s: seq<real>)
    ensures AverageIs(s, Average(s))
  {
  }

  /** One hop of the fold. */
  lemma OneMoreHop(snap: Snapshot, path: seq<Token>, i: nat, amount: int, fee: nat)
    requires i + 1 < |path| && FindHop(snap, path[i], path[i + 1]).Ok?
    ensures var h := FindHop(snap, path[i], path[i + 1]).value;
            var out := CalcAmountOut(amount, h.reserveIn, h.reserveOut, fee);
            && QuotePath(snap, path[i..], amount, fee) == QuotePath(snap, path[i + 1..], out, fee)
            && ImpactsAlong(snap, path[i..], amount, fee) == [ImpactBps(amount, h, out)]
               + ImpactsAlong(snap, path[i + 1..], out, fee)
  {
    assert path[i..][0] == path[i] && path[i..][1] == path[i + 1] && path[i..][1..] == path[i + 1..];
  }

  /** The hop loop of `quote`. It fails exactly where the fold fails, on the first hop without a
      pair, and otherwise quotes the fold, its slippage floor and the average of the hops' impacts. */
  method QuoteAlong(snap: Snapshot, path: seq<Token>, amountIn: int, slippageBps: int, fee: nat)
    returns (r: Result<Quote>, ghost amounts: seq<int>)
    ensures path != [] && r.Ok? ==> HopByHop(snap, path, fee, amountIn, r.value.expectedOut, amounts, r.value.impacts)
    ensures path != [] && r.Err? ==>
              exists i: nat :: i + 1 < |path| && FirstMissing(snap, path, i)
                && r.error == PairNotFound(path[i], path[i + 1])
    ensures path == [] ==> r.Ok? && r.value.expectedOut == amountIn && r.value.impacts == []
    ensures r.Ok? ==>
              AverageIs(r.value.impacts, r.value.priceImpactBps)
    ensures r.Err? <==> QuotePath(snap, path, amountIn, fee).Err?
    ensures r.Err? ==> r.error == QuotePath(snap, path, amountIn, fee).error
    ensures r.Ok? ==>
              && QuotePath(snap, path, amountIn, fee) == Ok(r.value.expectedOut)
              && r.value.minOut == MinOutFromSlippage(r.value.expectedOut, slippageBps)
              && r.value.routeSummary == Join(path)
              && r.value.impacts == ImpactsAlong(snap, path, amountIn, fee)
              && r.value.priceImpactBps == Average(r.value.impacts)
  {
    amounts := [];
    if path != [] { amounts := QuoteIsHopByHop(snap, path, amountIn, fee); }
    var amount := amountIn;
    var impacts: seq<real> := [];
    var total := 0.0;
    var i := 0;
    while i < |path| - 1
      invariant 0 <= i <= Max(0, |path| - 1) && total == Total(impacts)
      invariant impacts + ImpactsAlong(snap, path[i..], amount, fee) == ImpactsAlong(snap, path, amountIn, fee)
      invariant QuotePath(snap, path, amountIn, fee) == QuotePath(snap, path[i..], amount, fee)
    {
      match FindHop(snap, path[i], path[i + 1])
      case Err(e) =>
        assert path[i..][0] == path[i] && path[i..][1] == path[i + 1];
        return Err(e), amounts;
      case Ok(h) =>
        OneMoreHop(snap, path, i, amount, fee);
        var out := CalcAmountOut(amount, h.reserveIn, h.reserveOut, fee);
        var impact := ImpactBps(amount, h, out);
        assert (impacts + [impact])[..|impacts|] == impacts;
        impacts := impacts + [impact];
        total := total + impact;
        amount := out;
        i := i + 1;
    }
    assert impacts == ImpactsAlong(snap, path, amountIn, fee);
    var hops := Max(1, |impacts|);
    AverageMeans(impacts);
    r := Ok(Quote(amount, MinOutFromSlippage(amount, slippageBps), impacts, total / hops as real, Join(path)));
  }

  ghost predicate InRange(s: seq<real>)
  {
    forall k :: 0 <= k < |s| ==> 0.0 <= s[k] <= 10_000.0
  }

  /** Every hop's impact, and so their average, lies between nothing and the whole. */
  lemma {:induction false} ImpactsInRange(snap: Snapshot, path: seq<Token>, amount: int, fee: nat)
    ensures InRange(ImpactsAlong(snap, path, amount, fee))
    ensures 0.0 <= Average(ImpactsAlong(snap, path, amount, fee)) <= 10_000.0
    decreases |path|
  {
    if 2 <= |path| && FindHop(snap, path[0], path[1]).Ok? {
      var h := FindHop(snap, path[0], path[1]).value;
      ImpactRange(amount, h, fee);
      ImpactsInRange(snap, path[1..], CalcAmountOut(amount, h.reserveIn, h.reserveOut, fee), fee);
    }
    AverageInRange(ImpactsAlong(snap, path, amount, fee));
  }

  lemma AverageInRange(s: seq<real>)
    requires InRange(s)
    ensures 0.0 <= Average(s) <= 10_000.0
  {
    TotalRange(s);
    if s != [] { RealDivRange(Total(s), |s| as real); }
  }

  lemma {:induction false} TotalRange(s: seq<real>)
    requires InRange(s)
    ensures 0.0 <= Total(s) <= 10_000.0 * |s| as real
  {
    if s != [] { TotalRange(s[..|s| - 1]); }
  }

  lemma RealDivRange(total: real, n: real)
    requires 0.0 < n && 0.0 <= total <= 10_000.0 * n
    ensures 0.0 <= total / n <= 10_000.0
  {
  }

  lemma ImpactRange(amountIn: int, h: Hop, fee: nat)
    ensures 0.0 <= ImpactBps(amountIn, h, CalcAmountOut(amountIn, h.reserveIn, h.reserveOut, fee)) <= 10_000.0
  {
    var out := CalcAmountOut(amountIn, h.reserveIn, h.reserveOut, fee);
    var noImpact := (amountIn * h.reserveOut) as real / Max(1, h.reserveIn) as real;
    OutputBelowReserve(amountIn, h.reserveIn, h.reserveOut, fee);
    if noImpact > 0.0 {
      assert 0.0 <= out as real / noImpact;
    }
  }

  lemma {:induction false} QuoteMonotone(snap: Snapshot, path: seq<Token>, x: int, y: int, fee: nat)
    requires x <= y
    ensures QuotePath(snap, path, x, fee).Ok? == QuotePath(snap, path, y, fee).Ok?
    ensures QuotePath(snap, path, x, fee).Ok? ==>
              QuotePath(snap, path, x, fee).value <= QuotePath(snap, path, y, fee).value
    decreases |path|
  {
    if 2 <= |path| {
      var hop := FindHop(snap, path[0], path[1]);
      if hop.Ok? {
        var a, b := hop.value.reserveIn, hop.value.reserveOut;
        OutputMonotone(x, y, a, b, fee);
        QuoteMonotone(snap, path[1..], CalcAmountOut(x, a, b, fee), CalcAmountOut(y, a, b, fee), fee);
      }
    }
  }

  function Reverse(path: seq<Token>): (r: seq<Token>)
    ensures |r| == |path|
  {
    if path == [] then [] else Reverse(path[1..]) + [path[0]]
  }

  lemma {:induction false} ReverseLast(path: seq<Token>)
    requires path != []
    ensures Reverse(path)[|path| - 1] == path[0]
  {
  }

  /** Quoting a path extended at its end is quoting the path and then the last hop. */
  lemma {:induction false} QuoteSnoc(snap: Snapshot, path: seq<Token>, last: Token, amount: int, fee: int)
    requires path != []
    ensures var whole, front := QuotePath(snap, path + [last], amount, fee), QuotePath(snap, path, amount, fee);
            && (front.Err? ==> whole == front)
            && (front.Ok? ==> whole == QuotePath(snap, [path[|path| - 1], last], front.value, fee))
    decreases |path|
  {
    var whole := path + [last];
    assert whole[0] == path[0];
    if |path| == 1 {
      assert whole == [path[0], last];
    } else {
      assert whole[1] == path[1] && whole[1..] == path[1..] + [last];
      var hop := FindHop(snap, path[0], path[1]);
      if hop.Ok? {
        QuoteSnoc(snap, path[1..], last, CalcAmountOut(amount, hop.value.reserveIn, hop.value.reserveOut, fee), fee);
      }
    }
  }

  /** Quoting a path and then its reverse on the same snapshot succeeds together and never returns
      more than was put in, whatever the number of hops and however often a pair is reused. */
  lemma {:induction false} PathRoundTrip(snap: Snapshot, path: seq<Token>, amount: int, fee: nat)
    requires WellFormed(snap) && QuotePath(snap, path, amount, fee).Ok?
    ensures var there := QuotePath(snap, path, amount, fee).value;
            var back := QuotePath(snap, Reverse(path), there, fee);
            back.Ok? && back.value <= Max(0, amount)
    decreases |path|
  {
    if 2 <= |path| {
      var h := FindHop(snap, path[0], path[1]).value;
      var mid := CalcAmountOut(amount, h.reserveIn, h.reserveOut, fee);
      var there := QuotePath(snap, path, amount, fee).value;
      PathRoundTrip(snap, path[1..], mid, fee);
      ReverseLast(path[1..]);
      QuoteSnoc(snap, Reverse(path[1..]), path[0], there, fee);
      var nearly := QuotePath(snap, Reverse(path[1..]), there, fee).value;
      HopsMirror(snap, path[0], path[1]);
      OutputBelowReserve(amount, h.reserveIn, h.reserveOut, fee);
      HopRoundTrip(amount, h.reserveIn, h.reserveOut, fee);
      OutputMonotone(nearly, mid, h.reserveOut, h.reserveIn, fee);
      OneHop(snap, path[1], path[0], nearly, fee);
    }
  }

  lemma OneHop(snap: Snapshot, a: Token, b: Token, amount: int, fee: int)
    requires FindHop(snap, a, b).Ok?
    ensures var h := FindHop(snap, a, b).value;
            QuotePath(snap, [a, b], amount, fee) == Ok(CalcAmountOut(amount, h.reserveIn, h.reserveOut, fee))
  {
    assert [a, b][1..] == [b];
  }

  // The route string

  const ARROW: string := "->"

  /** `"->".join(path)` */
  function Join(path: seq<Token>): (s: string)
  {
    if path == [] then ""
    else if |path| == 1 then path[0]
    else path[0] + ARROW + Join(path[1..])
  }

  /** `s.split("->")`: cut at the leftmost arrow again and again; `acc` is the piece read so far. */
  function SplitFrom(acc: string, s: string): (parts: seq<Token>)
    ensures parts != []
    decreases |s|
  {
    if s == [] then [acc]
    else if ARROW <= s then [acc] + SplitFrom("", s[2..])
    else SplitFrom(acc + [s[0]], s[1..])
  }

  function Split(s: string): (parts: seq<Token>)
  {
    SplitFrom("", s)
  }

  ghost predicate HasArrow(s: string)
  {
    exists i :: 0 <= i < |s| - 1 && s[i] == '-' && s[i + 1] == '>'
  }

  ghost predicate Clean(path: seq<Token>)
  {
    forall t :: t in path ==> !HasArrow(t)
  }

  lemma HasArrowTail(s: string)
    requires s != []
    ensures HasArrow(s) <==> ARROW <= s || HasArrow(s[1..])
  {
    if HasArrow(s) {
      var i :| 0 <= i < |s| - 1 && s[i] == '-' && s[i + 1] == '>';
      if i > 0 { assert s[1..][i - 1] == '-' && s[1..][i] == '>'; }
    }
    if HasArrow(s[1..]) {
      var i :| 0 <= i < |s[1..]| - 1 && s[1..][i] == '-' && s[1..][i + 1] == '>';
      assert s[i + 1] == '-' && s[i + 2] == '>';
    }
    if ARROW <= s { assert s[0] == '-' && s[1] == '>'; }
  }

  lemma {:induction false} SplitCleanRest(acc: string, t: string)
    requires !HasArrow(t)
    ensures SplitFrom(acc, t) == [acc + t]
    decreases |t|
  {
    if t == [] {
      assert acc + t == acc;
    } else {
      HasArrowTail(t);
      SplitCleanRest(acc + [t[0]], t[1..]);
      assert acc + [t[0]] + t[1..] == acc + t;
    }
  }

  lemma {:induction false} SplitCleanPrefix(acc: string, t: string, rest: string)
    requires !HasArrow(t)
    ensures SplitFrom(acc, t + ARROW + rest) == [acc + t] + SplitFrom("", rest)
    decreases |t|
  {
    var s := t + ARROW + rest;
    if t == [] {
      assert s == ARROW + rest && s[2..] == rest && acc + t == acc;
    } else {
      HasArrowTail(t);
      assert s[0] == t[0] && s[1..] == t[1..] + ARROW + rest;
      assert !(ARROW <= s) by {
        assert |t| == 1 ==> s[1] == ARROW[0];
        assert |t| > 1 ==> s[1] == t[1] && (ARROW <= t <==> ARROW <= s);
      }
      SplitCleanPrefix(acc + [t[0]], t[1..], rest);
      assert acc + [t[0]] + t[1..] == acc + t;
    }
  }

  lemma {:induction false} SplitOfJoin(path: seq<Token>)
    requires path != [] && Clean(path)
    ensures Split(Join(path)) == path
  {
    if |path| == 1 {
      SplitCleanRest("", path[0]);
      assert [] + path[0] == path[0];
    } else {
      SplitOfJoin(path[1..]);
      SplitCleanPrefix("", path[0], Join(path[1..]));
      assert [] + path[0] == path[0];
    }
  }

  lemma HasArrowSnoc(acc: string, c: char)
    ensures HasArrow(acc + [c]) ==> HasArrow(acc) || (acc != [] && acc[|acc| - 1] == '-' && c == '>')
  {
    var next := acc + [c];
    if HasArrow(next) {
      var i :| 0 <= i < |next| - 1 && next[i] == '-' && next[i + 1] == '>';
      if i + 1 < |acc| { assert acc[i] == '-' && acc[i + 1] == '>'; }
    }
  }

  /** No piece of a split contains an arrow, so long as the piece being read cannot complete one. */
  lemma {:induction false} SplitIsClean(acc: string, s: string)
    requires !HasArrow(acc)
    requires acc != [] && s != [] ==> !(acc[|acc| - 1] == '-' && s[0] == '>')
    ensures Clean(SplitFrom(acc, s))
    decreases |s|
  {
    if s == [] {
    } else if ARROW <= s {
      SplitIsClean("", s[2..]);
    } else {
      var next := acc + [s[0]];
      assert !HasArrow(next) by { HasArrowSnoc(acc, s[0]); }
      assert |s| > 1 ==> (ARROW <= s <==> s[0] == '-' && s[1] == '>');
      SplitIsClean(next, s[1..]);
    }
  }

  /** `build` recovers the path that `quote` wrote exactly when no token contains an arrow. */
  lemma RouteRecoveredIff(path: seq<Token>)
    requires path != []
    ensures Split(Join(path)) == path <==> Clean(path)
  {
    if Clean(path) { SplitOfJoin(path); }
    SplitIsClean("", Join(path));
  }
}
