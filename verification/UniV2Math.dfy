/** Constant-product swap arithmetic of adapters/dex_packs/evm_univ2.py, with its floors. */
module UniV2Math {
  import opened Numbers

  function FeeMultiplier(feeBps: int): (g: int)
    ensures 0 <= g && (0 <= feeBps ==> g <= 10_000)
  {
    if feeBps > 10_000 then 0 else 10_000 - feeBps
  }

  /** One swap of the pool. Non-positive amounts and empty reserves quote zero. */
  function CalcAmountOut(amountIn: int, reserveIn: int, reserveOut: int, feeBps: int): (out: int)
  {
    if amountIn <= 0 || reserveIn <= 0 || reserveOut <= 0 then
      0
    else
      var amountInWithFee := amountIn * FeeMultiplier(feeBps);
      var num := amountInWithFee * reserveOut;
      var den := reserveIn * 10_000 + amountInWithFee;
      if den <= 0 then 0 else num / den
  }

  // Floor division, reduced to two multiplicative facts

  lemma FloorBounds(num: int, den: int)
    requires den > 0
    ensures (num / den) * den <= num < (num / den) * den + den
  {
  }

  lemma MulCancel(a: int, b: int, c: int)
    requires 0 < c && a * c <= b * c
    ensures a <= b
  {
    if b < a {
      MulLe(b + 1, a, c);
    }
  }

  lemma FloorIsGreatest(q: int, num: int, den: int)
    requires den > 0 && q * den <= num
    ensures q <= num / den
  {
    FloorBounds(num, den);
    if num / den < q {
      MulLe(num / den + 1, q, den);
    }
  }

  lemma OutBounds(x: int, a: int, b: int, fee: int)
    requires 0 < x && 0 < a && 0 < b
    ensures var out, u := CalcAmountOut(x, a, b, fee), x * FeeMultiplier(fee);
            0 <= u && 0 <= out < b && out * (a * 10_000 + u) <= u * b < (out + 1) * (a * 10_000 + u)
  {
    var g := FeeMultiplier(fee);
    var u := x * g;
    MulLe(0, g, x);
    var den := a * 10_000 + u;
    MulLe(0, u, b);
    FloorBounds(u * b, den);
    var out := u * b / den;
    assert out == CalcAmountOut(x, a, b, fee);
    assert u * b < b * den by {
      assert b * den == b * (a * 10_000) + u * b;
      MulLe(1, b, a * 10_000);
    }
    if out >= b { MulLe(b, out, den); }
    if out < 0 { MulLe(out, -1, den); }
    assert (out + 1) * den == out * den + den;
  }

  /** A quote between positive amounts is the greatest integer on or below the invariant curve with the
      fee taken off the input: it is below the reserve it is paid from, and rounding never favours the
      trader. Anything else is quoted zero, and so is a fee of 100% or more. */
  lemma OutSpec(x: int, a: int, b: int, fee: int)
    ensures var out, u := CalcAmountOut(x, a, b, fee), x * (10_000 - fee);
            if 0 < x && 0 < a && 0 < b && fee < 10_000 then
              0 <= out < b && out * (a * 10_000 + u) <= u * b < (out + 1) * (a * 10_000 + u)
            else out == 0
  {
    if 0 < x && 0 < a && 0 < b {
      OutBounds(x, a, b, fee);
      if 10_000 <= fee { NothingIn(x, a, b, CalcAmountOut(x, a, b, fee)); }
    }
  }

  lemma NothingIn(x: int, a: int, b: int, out: int)
    requires 0 < a && 0 <= out && out * (a * 10_000 + x * 0) <= x * 0 * b
    ensures out == 0
  {
    if 0 < out { MulLe(1, out, a * 10_000); }
  }

  /** A higher fee never pays more. */
  lemma FeeNeverPays(x: int, a: int, b: int, fee: int, fee': int)
    requires fee <= fee'
    ensures CalcAmountOut(x, a, b, fee') <= CalcAmountOut(x, a, b, fee)
  {
    if 0 < x && 0 < a && 0 < b {
      var u, u' := x * FeeMultiplier(fee), x * FeeMultiplier(fee');
      OutBounds(x, a, b, fee);
      OutBounds(x, a, b, fee');
      MulLe(FeeMultiplier(fee'), FeeMultiplier(fee), x);
      LessIn(u', u, a, b, CalcAmountOut(x, a, b, fee'));
    }
  }

  /** What a smaller input can buy, a larger one can. */
  lemma LessIn(u: int, v: int, a: int, b: int, out: int)
    requires 0 <= u <= v && 0 < a && 0 <= out <= b && out * (a * 10_000 + u) <= u * b
    ensures out <= v * b / (a * 10_000 + v)
  {
    // out * (A + u) <= u * b, and raising u to v adds out * (v - u) <= b * (v - u)
    MulLe(out, b, v - u);
    assert out * (a * 10_000 + v) == out * (a * 10_000 + u) + out * (v - u);
    assert b * (v - u) == v * b - u * b;
    FloorIsGreatest(out, v * b, a * 10_000 + v);
  }

  /** Output is never negative and stays below the reserve it is taken from. */
  lemma OutputBelowReserve(x: int, a: int, b: int, fee: nat)
    ensures 0 <= CalcAmountOut(x, a, b, fee)
    ensures 0 < b ==> CalcAmountOut(x, a, b, fee) < b
    ensures 0 <= b ==> CalcAmountOut(x, a, b, fee) <= b
  {
    if 0 < x && 0 < a && 0 < b { OutBounds(x, a, b, fee); }
  }

  lemma {:induction false} OutputMonotone(x: int, y: int, a: int, b: int, fee: nat)
    requires x <= y
    ensures CalcAmountOut(x, a, b, fee) <= CalcAmountOut(y, a, b, fee)
  {
    OutputBelowReserve(y, a, b, fee);
    if 0 < x && 0 < a && 0 < b {
      var g := FeeMultiplier(fee);
      var u, v := x * g, y * g;
      OutBounds(x, a, b, fee);
      var out := CalcAmountOut(x, a, b, fee);
      MulLe(x, y, g);
      LessIn(u, v, a, b, out);
    }
  }

  /** A swap never lowers the product of the reserves. */
  lemma ProductNeverFalls(x: nat, a: nat, b: nat, fee: nat)
    ensures (a + x) * (b - CalcAmountOut(x, a, b, fee)) >= a * b
  {
    var out := CalcAmountOut(x, a, b, fee);
    if 0 < x && 0 < a && 0 < b {
      OutBounds(x, a, b, fee);
      var g := FeeMultiplier(fee);
      ProductScaled(x, a, b, g, out);
    } else {
      MulLe(a, a + x, b);
    }
  }

  lemma ProductScaled(x: nat, a: nat, b: nat, g: int, out: int)
    requires 0 <= g <= 10_000 && 0 <= out <= b
    requires out * (a * 10_000 + x * g) <= x * g * b
    ensures (a + x) * (b - out) >= a * b
  {
    // 10000 * (x*b - out*a - out*x) >= (10000 - g) * x * (b - out)
    var w := x * (b - out);
    assert 0 <= w by { MulLe(0, b - out, x); }
    assert x * g * b - out * (x * g) == g * w by { ScaleBy(x, g, b, out); }
    assert out * (a * 10_000 + x * g) == 10_000 * (out * a) + out * (x * g) by { Distribute(out, a, x * g); }
    MulLe(g, 10_000, w);
    assert out * a <= w;
    assert (a + x) * (b - out) == a * b - out * a + w by { Expand(a, x, b, out); }
  }

  lemma ScaleBy(x: int, g: int, b: int, out: int)
    ensures x * g * b - out * (x * g) == g * (x * (b - out))
  {
    assert x * g * b - out * (x * g) == (x * g) * (b - out);
  }

  lemma Distribute(out: int, a: int, u: int)
    ensures out * (a * 10_000 + u) == 10_000 * (out * a) + out * u
  {
  }

  lemma Expand(a: int, x: int, b: int, out: int)
    ensures (a + x) * (b - out) == a * b - out * a + x * (b - out)
  {
    assert (a + x) * (b - out) == a * (b - out) + x * (b - out);
  }

  /** Swapping there and back through one pool never returns more than was put in. */
  lemma HopRoundTrip(x: int, a: int, b: int, fee: nat)
    ensures CalcAmountOut(CalcAmountOut(x, a, b, fee), b, a, fee) <= if x < 0 then 0 else x
  {
    var out := CalcAmountOut(x, a, b, fee);
    if 0 < x && 0 < a && 0 < b && 0 < out {
      OutBounds(x, a, b, fee);
      OutBounds(out, b, a, fee);
      BackAtMost(x, a, b, FeeMultiplier(fee), out, CalcAmountOut(out, b, a, fee));
    }
  }

  lemma BackAtMost(x: int, a: int, b: int, g: int, out: int, back: int)
    requires 0 < x && 0 < a && 0 < b && 0 < out && 0 <= g <= 10_000
    requires out * (a * 10_000 + x * g) <= x * g * b
    requires back * (b * 10_000 + out * g) <= out * g * a
    ensures back <= x
  {
    BackBound(x, a, b, g, out);
    MulLe(0, g, out);
    var den := b * 10_000 + out * g;
    NextUnit(x, b, out * g);
    if x < back {
      // back > x would need 10000*(x+1)*b <= 10000*x*b
      MulLe(x + 1, back, den);
    }
  }

  lemma NextUnit(x: int, b: int, v: int)
    requires 0 <= x && 0 <= v
    ensures (x + 1) * (b * 10_000 + v) >= 10_000 * (x * b) + 10_000 * b
  {
    MulLe(0, v, x + 1);
    Distribute(x + 1, b, v);
    assert (x + 1) * b == x * b + b;
  }

  lemma BackBound(x: int, a: int, b: int, g: int, out: int)
    requires 0 < x && 0 < a && 0 < b && 0 < out && 0 <= g <= 10_000
    requires out * (a * 10_000 + x * g) <= x * g * b
    ensures out * g * a <= 10_000 * (x * b)
  {
    assert 10_000 * (out * a) <= g * (x * b) by {
      Distribute(out, a, x * g);
      MulLe(0, x, g);
      MulLe(0, x * g, out);
      assert x * g * b == g * (x * b);
    }
    MulLe(0, b, x);
    assert g * (x * b) <= 10_000 * (x * b) by { MulLe(g, 10_000, x * b); }
    MulLe(0, a, out);
    assert out * g * a == g * (out * a);
    MulLe(g, 10_000, out * a);
  }

  // Splitting a trade

  /** What two consecutive swaps of one pool pay together. */
  function TwoSteps(x: nat, y: nat, a: int, b: int, fee: nat): (total: int)
  {
    var first := CalcAmountOut(x, a, b, fee);
    first + CalcAmountOut(y, a + x, b - first, fee)
  }

  lemma SplitNeverPays(x: nat, y: nat, a: int, b: int, fee: nat)
    requires 0 < a
    ensures TwoSteps(x, y, a, b, fee) <= CalcAmountOut(x + y, a, b, fee)
  {
    OutputBelowReserve(x + y, a, b, fee);
    if x == 0 || b <= 0 {
    } else {
      var first := CalcAmountOut(x, a, b, fee);
      OutBounds(x, a, b, fee);
      if y == 0 {
      } else {
        OutBounds(y, a + x, b - first, fee);
        OutBounds(x + y, a, b, fee);
        SplitFromSpecs(x, y, a, b, FeeMultiplier(fee), first, CalcAmountOut(y, a + x, b - first, fee),
          CalcAmountOut(x + y, a, b, fee));
      }
    }
  }

  lemma SplitFromSpecs(x: nat, y: nat, a: int, b: int, g: int, first: int, second: int, whole: int)
    requires 0 < a && 0 < b && 0 <= g <= 10_000
    requires first * (a * 10_000 + x * g) <= x * g * b
    requires second * ((a + x) * 10_000 + y * g) <= y * g * (b - first)
    requires (x + y) * g * b < (whole + 1) * (a * 10_000 + (x + y) * g)
    ensures first + second <= whole
  {
    MulLe(g, 10_000, x);
    MulLe(0, g, x);
    MulLe(0, g, y);
    var u, v := x * g, y * g;
    assert (x + y) * g == u + v;
    SplitCore(u, v, a * 10_000, (a + x) * 10_000, b, first, second);
    var den := a * 10_000 + (u + v);
    if whole + 1 <= first + second {
      MulLe(whole + 1, first + second, den);
    }
  }

  /** The polynomial heart of SplitNeverPays: `s` and `p` are the scaled reserves before each step. */
  lemma SplitCore(u: int, v: int, s: int, p: int, b: int, first: int, second: int)
    requires 0 <= u && 0 <= v && 0 < s && s + u <= p && 0 < b
    requires first * (s + u) <= u * b
    requires second * (p + v) <= v * (b - first)
    ensures (first + second) * (s + (u + v)) <= (u + v) * b
  {
    var q, w, total := s + u, p + v, first + second;
    SplitTotal(u, v, p, q, b, first, second);
    SplitPolynomial(u, v, s, p, q);
    assert 0 < w * q by { MulLe(1, w, q); }
    SplitScale(total, q + v, w * q, b, p * u + v * q, u + v);
  }

  lemma SplitTotal(u: int, v: int, p: int, q: int, b: int, first: int, second: int)
    requires 0 <= v && 0 < q <= p
    requires first * q <= u * b
    requires second * (p + v) <= v * (b - first)
    ensures (first + second) * ((p + v) * q) <= b * (p * u + v * q)
  {
    var total, w := first + second, p + v;
    SplitSum(v, p, b, first, second);
    MulLe(total * w, first * p + v * b, q);
    Regroup(first, p, v, b, q);
    MulLe(first * q, u * b, p);
    Commute(p, first * q);
    Commute(p, u * b);
    Swap(p, u, b);
    Distribute2(b, p * u, v * q);
    Assoc(total, w, q);
  }

  lemma SplitSum(v: int, p: int, b: int, first: int, second: int)
    requires second * (p + v) <= v * (b - first)
    ensures (first + second) * (p + v) <= first * p + v * b
  {
    Distribute2(p + v, first, second);
    Distribute2(first, p, v);
    Commute(v, first);
    assert v * (b - first) == v * b - v * first;
  }

  lemma Commute(a: int, b: int)
    ensures a * b == b * a
  {
  }

  lemma Distribute2(a: int, b: int, c: int)
    ensures a * (b + c) == a * b + a * c && (b + c) * a == b * a + c * a
  {
  }

  /** From t*k <= b*m and m*c <= n*k follows t*c <= n*b. */
  lemma SplitScale(t: int, c: int, k: int, b: int, m: int, n: int)
    requires 0 < k && 0 <= c && 0 <= b
    requires t * k <= b * m && m * c <= n * k
    ensures t * c <= n * b
  {
    MulLe(t * k, b * m, c);
    MulLe(m * c, n * k, b);
    Swap3(t, k, c);
    Assoc(b, m, c);
    assert b * (m * c) == (m * c) * b;
    Swap3(n, k, b);
    MulCancel(t * c, n * b, k);
  }

  lemma SplitPolynomial(u: int, v: int, s: int, p: int, q: int)
    requires 0 <= u && 0 <= v && 0 <= s && q == s + u && q <= p
    ensures (p * u + v * q) * (q + v) <= (u + v) * ((p + v) * q)
  {
    // the difference is v * (p - q) * s
    assert 0 <= v * (p - q) by { MulLe(0, p - q, v); }
    assert 0 <= v * (p - q) * s by { MulLe(0, v * (p - q), s); }
    SplitIdentity(u, v, s, p);
  }

  lemma SplitIdentity(u: int, v: int, s: int, p: int)
    ensures var q := s + u; (u + v) * ((p + v) * q) - (p * u + v * q) * (q + v) == v * (p - q) * s
  {
  }

  lemma Assoc(a: int, b: int, c: int)
    ensures a * b * c == a * (b * c)
  {
  }

  lemma Swap(p: int, u: int, b: int)
    ensures p * (u * b) == b * (p * u)
  {
    Assoc(b, p, u);
    Assoc(p, u, b);
  }

  lemma Swap3(a: int, b: int, c: int)
    ensures a * b * c == a * c * b
  {
    Assoc(a, b, c);
    Assoc(a, c, b);
  }

  lemma Regroup(f: int, p: int, v: int, b: int, q: int)
    ensures (f * p + v * b) * q == p * (f * q) + b * (v * q)
  {
    assert (f * p + v * b) * q == f * p * q + v * b * q;
    Swap3(f, p, q);
    Swap3(v, b, q);
  }

  /** Splitting is safe at every size exactly when the pool holds the input token, or the output
      side is at most one unit. The code quotes zero for an empty input reserve, so the first part
      of a split can seed it and the second part is then paid from the output side. */
  lemma SplitSafeIff(a: int, b: int)
    ensures (forall x: nat, y: nat, fee: nat :: TwoSteps(x, y, a, b, fee) <= CalcAmountOut(x + y, a, b, fee))
            <==> 0 < a || b <= 1
  {
    if 0 < a {
      forall x: nat, y: nat, fee: nat
        ensures TwoSteps(x, y, a, b, fee) <= CalcAmountOut(x + y, a, b, fee)
      {
        SplitNeverPays(x, y, a, b, fee);
      }
    } else if b <= 1 {
      forall x: nat, y: nat, fee: nat
        ensures TwoSteps(x, y, a, b, fee) <= CalcAmountOut(x + y, a, b, fee)
      {
        OutputBelowReserve(y, a + x, b, fee);
      }
    } else {
      EmptyPoolSplit(a, b);
    }
  }

  /** With no input reserve and two or more output units, seeding the pool and then buying one
      unit's worth pays, while the same amount in one trade is quoted zero. */
  lemma EmptyPoolSplit(a: int, b: int)
    requires a <= 0 && 2 <= b
    ensures TwoSteps(1 - a, 1, a, b, 0) >= 1
    ensures CalcAmountOut(1 - a + 1, a, b, 0) == 0
  {
    FloorIsGreatest(1, 10_000 * b, 20_000);
  }

  // Any number of trades

  function Sum(amounts: seq<nat>): (total: nat)
  {
    if amounts == [] then 0 else amounts[0] + Sum(amounts[1..])
  }

  /** Total output of selling the amounts one after the other into a pool holding (a, b). */
  function SellInParts(amounts: seq<nat>, a: int, b: int, fee: nat): (total: int)
  {
    if amounts == [] then
      0
    else
      var out := CalcAmountOut(amounts[0], a, b, fee);
      out + SellInParts(amounts[1..], a + amounts[0], b - out, fee)
  }

  /** However a trade is cut up, the parts together never beat the whole. */
  lemma {:induction false} SplittingNeverBeatsOneTrade(amounts: seq<nat>, a: int, b: int, fee: nat)
    requires 0 < a
    ensures SellInParts(amounts, a, b, fee) <= CalcAmountOut(Sum(amounts), a, b, fee)
  {
    if amounts != [] {
      var x, rest := amounts[0], Sum(amounts[1..]);
      var out := CalcAmountOut(x, a, b, fee);
      SplittingNeverBeatsOneTrade(amounts[1..], a + x, b - out, fee);
      SplitNeverPays(x, rest, a, b, fee);
    }
  }

  datatype Pool = Pool(reserve0: nat, reserve1: nat)

  datatype Trade = Trade(zeroForOne: bool, amountIn: nat)

  /** The pool after one trade in either direction. */
  function TradeOnce(p: Pool, t: Trade, fee: nat): (q: Pool)
  {
    OutputBelowReserve(t.amountIn, p.reserve0, p.reserve1, fee);
    OutputBelowReserve(t.amountIn, p.reserve1, p.reserve0, fee);
    if t.zeroForOne then
      var out := CalcAmountOut(t.amountIn, p.reserve0, p.reserve1, fee);
      Pool(p.reserve0 + t.amountIn, p.reserve1 - out)
    else
      var out := CalcAmountOut(t.amountIn, p.reserve1, p.reserve0, fee);
      Pool(p.reserve0 - out, p.reserve1 + t.amountIn)
  }

  function SwapAll(p: Pool, trades: seq<Trade>, fee: nat): (q: Pool)
    decreases |trades|
  {
    if trades == [] then p else SwapAll(TradeOnce(p, trades[0], fee), trades[1..], fee)
  }

  lemma TradeOnceKeepsProduct(p: Pool, t: Trade, fee: nat)
    ensures var q := TradeOnce(p, t, fee);
            && p.reserve0 * p.reserve1 <= q.reserve0 * q.reserve1
            && (0 < p.reserve0 ==> 0 < q.reserve0) && (0 < p.reserve1 ==> 0 < q.reserve1)
  {
    if t.zeroForOne {
      OutputBelowReserve(t.amountIn, p.reserve0, p.reserve1, fee);
      ProductNeverFalls(t.amountIn, p.reserve0, p.reserve1, fee);
    } else {
      OutputBelowReserve(t.amountIn, p.reserve1, p.reserve0, fee);
      ProductNeverFalls(t.amountIn, p.reserve1, p.reserve0, fee);
      var q := TradeOnce(p, t, fee);
      assert q.reserve1 * q.reserve0 == q.reserve0 * q.reserve1;
    }
  }

  lemma {:induction false} ProductOverRun(p: Pool, trades: seq<Trade>, fee: nat)
    ensures var q := SwapAll(p, trades, fee);
            && p.reserve0 * p.reserve1 <= q.reserve0 * q.reserve1
            && (0 < p.reserve0 ==> 0 < q.reserve0) && (0 < p.reserve1 ==> 0 < q.reserve1)
    decreases |trades|
  {
    if trades != [] {
      TradeOnceKeepsProduct(p, trades[0], fee);
      ProductOverRun(TradeOnce(p, trades[0], fee), trades[1..], fee);
    }
  }

  /** Over any run of trades in both directions the reserve product never falls, a side that was
      non-empty is never emptied, and so no run can take from one side without adding to the other. */
  lemma NoRunDrainsThePool(p: Pool, trades: seq<Trade>, fee: nat)
    requires 0 < p.reserve0 && 0 < p.reserve1
    ensures var q := SwapAll(p, trades, fee);
            && p.reserve0 * p.reserve1 <= q.reserve0 * q.reserve1
            && 0 < q.reserve0 && 0 < q.reserve1
            && (q.reserve0 <= p.reserve0 && q.reserve1 <= p.reserve1 ==> q == p)
  {
    ProductOverRun(p, trades, fee);
    var q := SwapAll(p, trades, fee);
    if q.reserve0 <= p.reserve0 && q.reserve1 <= p.reserve1 {
      ProductStrict(p, q);
    }
  }

  lemma ProductStrict(p: Pool, q: Pool)
    requires q.reserve0 <= p.reserve0 && q.reserve1 <= p.reserve1 && 0 < p.reserve0 && 0 < p.reserve1
    requires p.reserve0 * p.reserve1 <= q.reserve0 * q.reserve1
    ensures p == q
  {
    if q.reserve0 < p.reserve0 {
      MulLe(q.reserve0 + 1, p.reserve0, p.reserve1);
      MulLe(q.reserve1, p.reserve1, q.reserve0);
    } else if q.reserve1 < p.reserve1 {
      MulLe(q.reserve1 + 1, p.reserve1, p.reserve0);
    }
  }
}
