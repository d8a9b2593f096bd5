/** Time-stamped samples in a bounded deque, against the full history they were taken from. */
module SampleWindows {
  import opened BotStates

  /** `deque(maxlen=20000)` */
  const CAPACITY: nat := 20_000

  datatype Sample<+T> = Sample(ts: real, value: T)

  /** The two full sample histories at some point. */
  datatype Past = Past(rpc: seq<Sample<real>>, tx: seq<Sample<bool>>)

  lemma Associative<T>(a: seq<T>, b: seq<T>, c: seq<T>)
    ensures a + b + c == a + (b + c)
  {
  }

  /** Append to a full deque evicts the oldest element. */
  function Push<T>(s: seq<Sample<T>>, x: Sample<T>): (r: seq<Sample<T>>)
  {
    if |s| < CAPACITY then s + [x] else s[1..] + [x]
  }

  /** What is left after popping samples older than `cutoff` from the front. */
  function DropOld<T>(s: seq<Sample<T>>, cutoff: real): (r: seq<Sample<T>>)
  {
    if s != [] && s[0].ts < cutoff then DropOld(s[1..], cutoff) else s
  }

  /** The deque lost its front up to the first sample that is not older than `cutoff`. */
  ghost predicate FrontDropped<T>(s: seq<Sample<T>>, r: seq<Sample<T>>, cutoff: real)
  {
    && |r| <= |s| && r == s[|s| - |r|..] && (r != [] ==> cutoff <= r[0].ts)
    && forall i :: 0 <= i < |s| - |r| ==> s[i].ts < cutoff
  }

  lemma {:induction false} DropOldDrops<T>(s: seq<Sample<T>>, cutoff: real)
    ensures FrontDropped(s, DropOld(s, cutoff), cutoff)
  {
    if s != [] && s[0].ts < cutoff {
      DropOldDrops(s[1..], cutoff);
      assert forall i :: 0 < i < |s| ==> s[i] == s[1..][i - 1];
    }
  }

  /** The values of the samples at or after `cutoff`, in order. */
  function InWindow<T>(s: seq<Sample<T>>, cutoff: real): (r: seq<T>)
  {
    if s == [] then []
    else if s[0].ts >= cutoff then [s[0].value] + InWindow(s[1..], cutoff)
    else InWindow(s[1..], cutoff)
  }

  /** The last 20,000 samples of a history. */
  function Recent<T>(h: seq<Sample<T>>): (r: seq<Sample<T>>)
  {
    if |h| <= CAPACITY then h else h[|h| - CAPACITY..]
  }

  /** Of the last 20,000 samples of `h`, those among its first `n` are older than `cutoff`. */
  ghost predicate AllStale<T>(h: seq<Sample<T>>, n: int, cutoff: real)
    requires n <= |h|
  {
    forall i :: 0 <= i < n && |h| - CAPACITY <= i ==> Stale(h, i, cutoff)
  }

  ghost predicate Stale<T>(h: seq<Sample<T>>, i: nat, cutoff: real)
    requires i < |h|
  {
    h[i].ts < cutoff
  }

  /** `s` is what a trimmed, capped deque holds of history `h`: a suffix of it, missing from its
      last 20,000 samples only ones that had left the widest window by `clock`. */
  ghost predicate Keeps<T>(s: seq<Sample<T>>, h: seq<Sample<T>>, clock: real, widest: real)
  {
    && |s| <= |h| && |s| <= CAPACITY && s == h[|h| - |s|..]
    && AllStale(h, |h| - |s|, clock - widest)
  }

  lemma KeepsLater<T>(s: seq<Sample<T>>, h: seq<Sample<T>>, clock: real, widest: real, now: real)
    requires Keeps(s, h, clock, widest) && clock <= now
    ensures Keeps(s, h, now, widest)
  {
    var cutoff, later := clock - widest, now - widest;
    forall i | 0 <= i < |h| - |s| && |h| - CAPACITY <= i ensures Stale(h, i, later) {
      assert Stale(h, i, cutoff);
    }
  }

  lemma KeepsPush<T>(s: seq<Sample<T>>, h: seq<Sample<T>>, clock: real, widest: real, x: Sample<T>)
    requires Keeps(s, h, clock, widest) && clock <= x.ts
    ensures Keeps(Push(s, x), h + [x], x.ts, widest)
  {
    KeepsLater(s, h, clock, widest, x.ts);
    var h', s', cutoff := h + [x], Push(s, x), x.ts - widest;
    assert s' == h'[|h'| - |s'|..];
    forall i | 0 <= i < |h'| - |s'| && |h'| - CAPACITY <= i ensures Stale(h', i, cutoff) {
      assert Stale(h, i, cutoff);
    }
  }

  lemma {:induction false} KeepsTrim<T>(s: seq<Sample<T>>, h: seq<Sample<T>>, clock: real, widest: real, now: real)
    requires Keeps(s, h, clock, widest) && clock <= now
    ensures Keeps(DropOld(s, now - widest), h, now, widest)
    decreases |s|
  {
    KeepsLater(s, h, clock, widest, now);
    var cutoff := now - widest;
    if s != [] && s[0].ts < cutoff {
      var cut := |h| - |s|;
      assert s[0] == h[cut] && s[1..] == h[cut + 1..];
      forall i | 0 <= i < cut + 1 && |h| - CAPACITY <= i ensures Stale(h, i, cutoff) {
        assert i < cut ==> Stale(h, i, cutoff);
      }
      KeepsTrim(s[1..], h, now, widest, now);
    }
  }

  lemma {:induction false} WindowConcat<T>(a: seq<Sample<T>>, b: seq<Sample<T>>, cutoff: real)
    ensures InWindow(a + b, cutoff) == InWindow(a, cutoff) + InWindow(b, cutoff)
    decreases |a|
  {
    if a == [] {
      assert a + b == b;
    } else {
      assert (a + b)[1..] == a[1..] + b;
      WindowConcat(a[1..], b, cutoff);
    }
  }

  lemma {:induction false} WindowOfOld<T>(a: seq<Sample<T>>, cutoff: real)
    requires forall i :: 0 <= i < |a| ==> a[i].ts < cutoff
    ensures InWindow(a, cutoff) == []
  {
    if a != [] {
      assert forall i :: 0 <= i < |a[1..]| ==> a[1..][i] == a[i + 1];
      WindowOfOld(a[1..], cutoff);
    }
  }

  lemma {:induction false} WindowOfFresh<T>(a: seq<Sample<T>>, cutoff: real)
    requires forall i :: 0 <= i < |a| ==> a[i].ts >= cutoff
    ensures |InWindow(a, cutoff)| == |a| && forall i :: 0 <= i < |a| ==> InWindow(a, cutoff)[i] == a[i].value
  {
    if a != [] {
      assert forall i :: 0 <= i < |a[1..]| ==> a[1..][i] == a[i + 1];
      WindowOfFresh(a[1..], cutoff);
    }
  }

  /** Any window no wider than the trimming one reads the same from the deque as from the last
      20,000 samples of the untrimmed history. */
  lemma WindowUnaffected<T>(s: seq<Sample<T>>, h: seq<Sample<T>>, clock: real, widest: real, now: real, window: real)
    requires Keeps(s, h, clock, widest) && clock <= now && window <= widest
    ensures InWindow(s, now - window) == InWindow(Recent(h), now - window)
  {
    var recent := Recent(h);
    var gone := recent[..|recent| - |s|];
    assert recent == gone + s;
    var cutoff := clock - widest;
    forall i | 0 <= i < |gone| ensures gone[i].ts < now - window {
      assert gone[i] == h[|h| - |recent| + i] && Stale(h, |h| - |recent| + i, cutoff);
    }
    WindowConcat(gone, s, now - window);
    WindowOfOld(gone, now - window);
  }

  /** `w` are the values, in order, of the samples of `h` from place `from` on that are not older than
      `cutoff`; `at` are their places. */
  ghost predicate Selects<T>(h: seq<Sample<T>>, from: nat, cutoff: real, at: seq<int>, w: seq<T>)
  {
    && |at| == |w|
    && (forall i: nat, j: nat :: i < j < |at| ==> Earlier(at, i, j))
    && (forall i: nat :: i < |at| ==> from <= at[i] < |h| && cutoff <= h[at[i]].ts && w[i] == h[at[i]].value)
    && (forall j: nat :: from <= j < |h| && cutoff <= h[j].ts ==> j in at)
  }

  ghost predicate Earlier(at: seq<int>, i: nat, j: nat)
    requires i < |at| && j < |at|
  {
    at[i] < at[j]
  }

  lemma {:induction false} WindowSelects<T>(h: seq<Sample<T>>, from: nat, cutoff: real) returns (at: seq<int>)
    requires from <= |h|
    ensures Selects(h, from, cutoff, at, InWindow(h[from..], cutoff))
    decreases |h| - from
  {
    at := [];
    if from < |h| {
      var later := WindowSelects(h, from + 1, cutoff);
      var rest := h[from + 1..];
      assert h[from..][1..] == rest && h[from..][0] == h[from];
      if cutoff <= h[from].ts {
        at := [from] + later;
        OneMorePlace(h, from, cutoff, later, InWindow(rest, cutoff));
      } else {
        at := later;
      }
    }
  }

  lemma OneMorePlace<T>(h: seq<Sample<T>>, from: nat, cutoff: real, later: seq<int>, w: seq<T>)
    requires from < |h| && cutoff <= h[from].ts && Selects(h, from + 1, cutoff, later, w)
    ensures Selects(h, from, cutoff, [from] + later, [h[from].value] + w)
  {
    var at := [from] + later;
    forall i: nat, j: nat | i < j < |at| ensures Earlier(at, i, j) {
      if 0 < i { assert Earlier(later, i - 1, j - 1); }
    }
    forall j: nat | from <= j < |h| && cutoff <= h[j].ts ensures j in at {
      assert from < j ==> j in later;
      assert at[0] == from;
      if from < j {
        var l :| 0 <= l < |later| && later[l] == j;
        assert at[l + 1] == j;
      }
    }
  }

  ghost predicate SelectsRecent<T>(h: seq<Sample<T>>, cutoff: real, at: seq<int>, w: seq<T>)
  {
    Selects(h, if |h| <= 20_000 then 0 else |h| - 20_000, cutoff, at, w)
  }

  /** What a window of the last 20,000 samples reads. */
  lemma RecentSelects<T>(h: seq<Sample<T>>, cutoff: real) returns (at: seq<int>)
    ensures SelectsRecent(h, cutoff, at, InWindow(Recent(h), cutoff))
  {
    assert h[0..] == h;
    at := WindowSelects(h, if |h| <= 20_000 then 0 else |h| - 20_000, cutoff);
  }

  // Percentile and failure rate of a window

  function Insert(x: real, s: seq<real>): (r: seq<real>)
  {
    if s == [] || x <= s[0] then [x] + s else [s[0]] + Insert(x, s[1..])
  }

  /** `vals.sort()` */
  function SortReals(s: seq<real>): (r: seq<real>)
  {
    if s == [] then [] else Insert(s[0], SortReals(s[1..]))
  }

  ghost predicate NonDecreasing(s: seq<real>)
  {
    forall i, j :: 0 <= i < j < |s| ==> s[i] <= s[j]
  }

  lemma {:induction false} InsertSorted(x: real, s: seq<real>)
    requires NonDecreasing(s)
    ensures NonDecreasing(Insert(x, s)) && |Insert(x, s)| == |s| + 1
    ensures multiset(Insert(x, s)) == multiset(s) + multiset{x}
    ensures forall y :: y in Insert(x, s) <==> y == x || y in s
  {
    if s == [] || x <= s[0] {
      assert [x] + s == Insert(x, s);
    } else {
      var tail := s[1..];
      assert s == [s[0]] + tail;
      InsertSorted(x, tail);
      var r := Insert(x, tail);
      assert forall i :: 0 <= i < |r| ==> r[i] in r;
      assert forall y :: y in tail ==> s[0] <= y;
      assert Insert(x, s) == [s[0]] + r;
    }
  }

  lemma {:induction false} SortSorts(s: seq<real>)
    ensures NonDecreasing(SortReals(s)) && |SortReals(s)| == |s| && multiset(SortReals(s)) == multiset(s)
    ensures forall y :: y in SortReals(s) <==> y in s
  {
    if s != [] {
      SortSorts(s[1..]);
      InsertSorted(s[0], SortReals(s[1..]));
      assert s == [s[0]] + s[1..];
    }
  }

  function CountAbove(s: seq<real>, v: real): (n: nat)
    ensures n <= |s|
  {
    if s == [] then 0 else (if s[0] > v then 1 else 0) + CountAbove(s[1..], v)
  }

  function CountBelow(s: seq<real>, v: real): (n: nat)
    ensures n <= |s|
  {
    if s == [] then 0 else (if s[0] < v then 1 else 0) + CountBelow(s[1..], v)
  }

  lemma {:induction false} CountInsert(x: real, s: seq<real>, v: real)
    ensures CountAbove(Insert(x, s), v) == CountAbove([x] + s, v)
    ensures CountBelow(Insert(x, s), v) == CountBelow([x] + s, v)
  {
    assert ([x] + s)[1..] == s;
    if !(s == [] || x <= s[0]) {
      CountInsert(x, s[1..], v);
      assert ([x] + s[1..])[1..] == s[1..];
      assert Insert(x, s)[1..] == Insert(x, s[1..]);
    }
  }

  lemma {:induction false} CountSort(s: seq<real>, v: real)
    ensures CountAbove(SortReals(s), v) == CountAbove(s, v)
    ensures CountBelow(SortReals(s), v) == CountBelow(s, v)
  {
    if s != [] {
      CountSort(s[1..], v);
      CountInsert(s[0], SortReals(s[1..]), v);
      assert ([s[0]] + SortReals(s[1..]))[1..] == SortReals(s[1..]);
    }
  }

  lemma {:induction false} CountsAtIndex(s: seq<real>, i: nat)
    requires NonDecreasing(s) && i < |s|
    ensures CountAbove(s, s[i]) <= |s| - 1 - i && CountBelow(s, s[i]) <= i
  {
    var tail := s[1..];
    assert forall k :: 0 <= k < |tail| ==> tail[k] == s[k + 1];
    if i == 0 {
      NoneBelow(s, s[0]);
    } else {
      CountsAtIndex(tail, i - 1);
    }
  }

  lemma {:induction false} NoneBelow(s: seq<real>, v: real)
    requires forall i :: 0 <= i < |s| ==> v <= s[i]
    ensures CountBelow(s, v) == 0
  {
    if s != [] {
      assert forall k :: 0 <= k < |s[1..]| ==> s[1..][k] == s[k + 1];
      NoneBelow(s[1..], v);
    }
  }

  /** Python's round of `hundredths` / 100: to the nearest integer, halves to the even one. */
  function RoundHundredths(hundredths: nat): (r: nat)
  {
    var q, rest := hundredths / 100, hundredths % 100;
    if rest < 50 || (rest == 50 && q % 2 == 0) then q else q + 1
  }

  function P99Index(n: nat): (i: nat)
    requires n > 0
    ensures i < n
  {
    var i := RoundHundredths(99 * (n - 1));
    if n - 1 < i then n - 1 else i
  }

  function P99(vals: seq<real>): (r: Option<real>)
  {
    if vals == [] then None
    else
      SortSorts(vals);
      Some(SortReals(vals)[P99Index(|vals|)])
  }

  /** The reported percentile is one of the samples, with at most 0.01(n-1)+0.5 samples above it
      and at most 0.99(n-1)+0.5 below it. */
  lemma P99Rank(vals: seq<real>)
    ensures vals == [] <==> P99(vals).None?
    ensures vals != [] ==>
              var v, n := P99(vals).value, |vals|;
              && v in vals
              && CountAbove(vals, v) as real <= 0.01 * (n - 1) as real + 0.5
              && CountBelow(vals, v) as real <= 0.99 * (n - 1) as real + 0.5
  {
    if vals != [] {
      var sorted, i := SortReals(vals), P99Index(|vals|);
      SortSorts(vals);
      assert sorted[i] in sorted;
      CountsAtIndex(sorted, i);
      CountSort(vals, sorted[i]);
    }
  }

  /** The percentile is the sample at place k of the sorted window, where k is 0.99 * (n - 1) rounded to
      the nearest integer, halves to the even one. */
  ghost predicate Percentile99(vals: seq<real>, sorted: seq<real>, k: nat, v: real)
  {
    && multiset(sorted) == multiset(vals) && (forall i, j :: 0 <= i < j < |sorted| ==> sorted[i] <= sorted[j])
    && k < |sorted| == |vals| && sorted[k] == v
    && -50 <= 100 * k - 99 * (|vals| - 1) <= 50
    && (100 * k - 99 * (|vals| - 1) == 50 || 100 * k - 99 * (|vals| - 1) == -50 ==> k % 2 == 0)
  }

  lemma P99IndexMeans(n: nat)
    requires 0 < n
    ensures var d := 100 * P99Index(n) - 99 * (n - 1);
            -50 <= d <= 50 && (d == 50 || d == -50 ==> P99Index(n) % 2 == 0)
  {
  }

  lemma P99Means(vals: seq<real>) returns (sorted: seq<real>, k: nat)
    ensures vals == [] <==> P99(vals).None?
    ensures vals != [] ==> Percentile99(vals, sorted, k, P99(vals).value)
  {
    sorted, k := [], 0;
    if vals != [] {
      SortSorts(vals);
      sorted, k := SortReals(vals), P99Index(|vals|);
      P99IndexMeans(|vals|);
    }
  }

  function CountFailed(oks: seq<bool>): (n: nat)
    ensures n <= |oks|
  {
    if oks == [] then 0 else (if oks[0] then 0 else 1) + CountFailed(oks[1..])
  }

  lemma {:induction false} CountFailedConcat(a: seq<bool>, b: seq<bool>)
    ensures CountFailed(a + b) == CountFailed(a) + CountFailed(b)
  {
    if a == [] {
      assert a + b == b;
    } else {
      assert (a + b)[1..] == a[1..] + b;
      CountFailedConcat(a[1..], b);
    }
  }

  /** The places of the failures. */
  ghost function FailedPlaces(oks: seq<bool>): set<int>
  {
    set i | 0 <= i < |oks| && !oks[i]
  }

  lemma {:induction false} CountFailedMeans(oks: seq<bool>)
    ensures CountFailed(oks) == |set i | 0 <= i < |oks| && !oks[i]|
  {
    assert FailedPlaces(oks) == set i | 0 <= i < |oks| && !oks[i];
    if oks == [] {
      assert FailedPlaces(oks) == {};
    } else {
      var n := |oks| - 1;
      CountFailedMeans(oks[..n]);
      CountFailedConcat(oks[..n], oks[n..]);
      assert oks == oks[..n] + oks[n..] && FailedPlaces(oks[..n]) == set i | 0 <= i < |oks[..n]| && !oks[..n][i];
      assert FailedPlaces(oks) == FailedPlaces(oks[..n]) + if oks[n] then {} else {n};
    }
  }

  function Ratio(failed: nat, total: nat): (r: real)
    requires 0 < total
  {
    failed as real / total as real
  }

  function FailureRate(oks: seq<bool>): (r: Option<real>)
    ensures r.Some? ==> 0.0 <= r.value <= 1.0
  {
    if oks == [] then None
    else
      RatioInUnit(CountFailed(oks), |oks|);
      Some(Ratio(CountFailed(oks), |oks|))
  }

  lemma RatioInUnit(k: nat, n: nat)
    requires k <= n && 0 < n
    ensures 0.0 <= Ratio(k, n) <= 1.0
  {
    RatioLe(k as real, n as real, 1.0);
  }

  lemma RatioLe(a: real, n: real, c: real)
    requires 0.0 < n && a <= c * n
    ensures a / n <= c
  {
    assert a / n * n == a;
  }

  /** This many failures among this many samples are above the limit. */
  predicate Above(failed: nat, total: nat, rate: real)
  {
    0 < total && failed as real > rate * total as real
  }

  lemma RatioAbove(failed: nat, total: nat, rate: real)
    requires 0 < total
    ensures Ratio(failed, total) > rate <==> Above(failed, total, rate)
  {
    Divided(failed as real, total as real, rate);
  }

  lemma Divided(x: real, a: real, rate: real)
    requires 0.0 < a
    ensures x / a > rate <==> x > rate * a
  {
    var q := x / a;
    assert q * a == x;
    if q > rate { assert (q - rate) * a > 0.0; } else { assert (rate - q) * a >= 0.0; }
  }
}
