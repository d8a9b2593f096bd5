/** The per-user sliding-window limiter of ops/security.py. */
module UserRateLimits {

  // Grants of one user, oldest first

  ghost predicate Sorted(g: seq<real>)
  {
    forall i: nat, j: nat :: i <= j < |g| ==> InOrder(g, i, j)
  }

  ghost predicate InOrder(g: seq<real>, i: nat, j: nat)
    requires i <= j < |g|
  {
    g[i] <= g[j]
  }

  lemma SortedTail(g: seq<real>, k: nat)
    requires Sorted(g) && k <= |g|
    ensures Sorted(g[k..])
  {
    forall i: nat, j: nat | i <= j < |g[k..]| ensures InOrder(g[k..], i, j) {
      assert InOrder(g, k + i, k + j);
    }
  }

  predicate Within(x: real, lo: real, hi: real) { lo < x <= hi }

  /** How many grants fall in the half-open window (lo, hi]. */
  function Count(g: seq<real>, lo: real, hi: real): (n: nat)
    ensures n <= |g|
  {
    if g == [] then 0 else (if Within(g[0], lo, hi) then 1 else 0) + Count(g[1..], lo, hi)
  }

  /** The grants in the window (t - w, t]. */
  function Load(g: seq<real>, w: real, t: real): (n: nat)
  {
    Count(g, t - w, t)
  }

  /** Any `limit` grants in a row are followed by the next one no sooner than a window later. */
  ghost predicate Spaced(g: seq<real>, limit: nat, w: real)
  {
    forall i: nat :: i < |g| - limit ==> SpacedAt(g, limit, w, i)
  }

  ghost predicate SpacedAt(g: seq<real>, limit: nat, w: real, i: nat)
    requires i < |g| - limit
  {
    g[i] + w <= g[i + limit]
  }

  lemma {:induction false} CountConcat(a: seq<real>, b: seq<real>, lo: real, hi: real)
    ensures Count(a + b, lo, hi) == Count(a, lo, hi) + Count(b, lo, hi)
  {
    if a == [] {
      assert a + b == b;
    } else {
      assert (a + b)[1..] == a[1..] + b;
      CountConcat(a[1..], b, lo, hi);
    }
  }

  lemma {:induction false} CountNone(g: seq<real>, lo: real, hi: real)
    requires forall x :: x in g ==> !Within(x, lo, hi)
    ensures Count(g, lo, hi) == 0
  {
    if g != [] {
      assert g[0] in g && forall x :: x in g[1..] ==> x in g;
      CountNone(g[1..], lo, hi);
    }
  }

  lemma {:induction false} CountAll(g: seq<real>, lo: real, hi: real)
    requires forall x :: x in g ==> Within(x, lo, hi)
    ensures Count(g, lo, hi) == |g|
  {
    if g != [] {
      assert g[0] in g && forall x :: x in g[1..] ==> x in g;
      CountAll(g[1..], lo, hi);
    }
  }

  /** The count is the number of places in the window. */
  lemma {:induction false} CountMeans(g: seq<real>, lo: real, hi: real)
    ensures Count(g, lo, hi) == |set i | 0 <= i < |g| && lo < g[i] <= hi|
  {
    assert CountedPlaces(g, lo, hi) == set i | 0 <= i < |g| && lo < g[i] <= hi;
    if g == [] {
      assert CountedPlaces(g, lo, hi) == {};
    } else {
      var n := |g| - 1;
      CountMeans(g[..n], lo, hi);
      CountConcat(g[..n], g[n..], lo, hi);
      assert g == g[..n] + g[n..] && CountedPlaces(g[..n], lo, hi) == set i | 0 <= i < |g[..n]| && lo < g[..n][i] <= hi;
      assert CountedPlaces(g, lo, hi) == CountedPlaces(g[..n], lo, hi) + if Within(g[n], lo, hi) then {n} else {};
    }
  }

  ghost function CountedPlaces(g: seq<real>, lo: real, hi: real): set<int>
  {
    set i | 0 <= i < |g| && lo < g[i] <= hi
  }

  /** Spacing bounds every window, not only those that end at a call. */
  lemma {:induction false} AtMostLimit(g: seq<real>, limit: nat, w: real, lo: real, hi: real)
    requires Sorted(g) && Spaced(g, limit, w) && hi - lo <= w
    ensures Count(g, lo, hi) <= limit
  {
    if g == [] {
    } else if !Within(g[0], lo, hi) {
      forall i: nat | i < |g[1..]| - limit ensures SpacedAt(g[1..], limit, w, i) {
        assert SpacedAt(g, limit, w, i + 1);
      }
      SortedTail(g, 1);
      AtMostLimit(g[1..], limit, w, lo, hi);
    } else if limit < |g| {
      assert SpacedAt(g, limit, w, 0);
      assert g == g[..limit] + g[limit..];
      CountConcat(g[..limit], g[limit..], lo, hi);
      forall x | x in g[limit..] ensures !Within(x, lo, hi) {
        var i :| 0 <= i < |g[limit..]| && g[limit..][i] == x;
        assert InOrder(g, limit, limit + i);
      }
      CountNone(g[limit..], lo, hi);
    }
  }

  /** What popping expired entries from the front leaves. */
  function Prune(q: seq<real>, cutoff: real): (r: seq<real>)
  {
    if q != [] && q[0] <= cutoff then Prune(q[1..], cutoff) else q
  }

  /** `q` is what the limiter still holds of the grants `g`: a suffix, missing only grants that had
      left the window by `clock`. */
  ghost predicate Holds(q: seq<real>, g: seq<real>, clock: real, w: real)
  {
    && |q| <= |g| && q == g[|g| - |q|..]
    && Sorted(g) && (g != [] ==> g[|g| - 1] <= clock)
    && (|q| < |g| ==> g[|g| - |q| - 1] <= clock - w)
  }

  /** Grants no longer held had left the window; those held were granted by `clock`. */
  lemma OldOnes(q: seq<real>, g: seq<real>, clock: real, w: real)
    requires Holds(q, g, clock, w)
    ensures var gone := g[..|g| - |q|]; forall x :: x in gone ==> x <= clock - w
    ensures forall x :: x in q ==> x <= clock && q[0] <= x
  {
    var cut := |g| - |q|;
    forall x | x in g[..cut] ensures x <= clock - w {
      var i :| 0 <= i < cut && g[i] == x;
      assert InOrder(g, i, cut - 1);
    }
    forall x | x in q ensures x <= clock && q[0] <= x {
      var i :| 0 <= i < |q| && q[i] == x;
      assert g[cut + i] == x && InOrder(g, cut + i, |g| - 1) && InOrder(g, cut, cut + i);
    }
  }

  lemma {:induction false} PruneHolds(q: seq<real>, g: seq<real>, clock: real, w: real, t: real)
    requires Holds(q, g, clock, w) && clock <= t
    ensures var r := Prune(q, t - w); Holds(r, g, t, w) && forall x :: x in r ==> t - w < x
    decreases |q|
  {
    var cut := |g| - |q|;
    if q == [] {
    } else if q[0] <= t - w {
      assert q[0] == g[cut] && q[1..] == g[cut + 1..];
      PruneHolds(q[1..], g, t, w, t);
    } else {
      OldOnes(q, g, clock, w);
    }
  }

  /** After pruning, the queue is as long as the window is full. */
  lemma PrunedCount(q: seq<real>, g: seq<real>, t: real, w: real)
    requires Holds(q, g, t, w) && forall x :: x in q ==> t - w < x
    ensures Count(g, t - w, t) == |q|
  {
    var cut := |g| - |q|;
    assert g == g[..cut] + q;
    CountConcat(g[..cut], q, t - w, t);
    OldOnes(q, g, t, w);
    CountNone(g[..cut], t - w, t);
    CountAll(q, t - w, t);
  }

  /** A full window empties of one entry exactly one window after its oldest grant. */
  lemma NextGrant(q: seq<real>, g: seq<real>, t: real, w: real, t': real)
    requires Holds(q, g, t, w) && q != [] && t <= t'
    ensures Load(g, w, t') < |q| <==> q[0] + w <= t'
  {
    var cut := |g| - |q|;
    assert g == g[..cut] + q;
    CountConcat(g[..cut], q, t' - w, t');
    OldOnes(q, g, t, w);
    CountNone(g[..cut], t' - w, t');
    if q[0] + w <= t' {
      assert Count(q, t' - w, t') == Count(q[1..], t' - w, t');
    } else {
      CountAll(q, t' - w, t');
    }
  }

  /** A grant that finds fewer than `limit` grants in the window keeps the spacing. */
  lemma SpacedSnoc(q: seq<real>, g: seq<real>, t: real, w: real, limit: nat)
    requires Holds(q, g, t, w) && Spaced(g, limit, w) && |q| < limit
    ensures Spaced(g + [t], limit, w) && Holds(q + [t], g + [t], t, w)
  {
    var h := g + [t];
    forall i: nat | i < |h| - limit ensures SpacedAt(h, limit, w, i) {
      if i + limit < |g| {
        assert SpacedAt(g, limit, w, i);
      } else {
        assert InOrder(g, i, |g| - |q| - 1);
      }
    }
    assert q + [t] == h[|h| - |q + [t]|..];
    forall i: nat, j: nat | i <= j < |h| ensures InOrder(h, i, j) {
      if j < |g| {
        assert InOrder(g, i, j);
      } else if i < |g| {
        assert InOrder(g, i, |g| - 1);
      }
    }
  }

  /** Everything the limiter keeps true of one user. */
  ghost predicate Kept(q: seq<real>, g: seq<real>, limit: int, w: real, clock: real)
  {
    Holds(q, g, clock, w) && Spaced(g, Most(limit), w) && (limit <= 0 ==> g == [])
  }

  function Most(limit: int): nat { if limit < 0 then 0 else limit }

  function Of(m: map<int, seq<real>>, user: int): seq<real>
  {
    if user in m then m[user] else []
  }

  ghost predicate KeptFor(user: int, events: map<int, seq<real>>, grants: map<int, seq<real>>, limit: int, w: real,
                          clock: real)
  {
    Kept(Of(events, user), Of(grants, user), limit, w, clock)
  }

  ghost predicate AllKept(events: map<int, seq<real>>, grants: map<int, seq<real>>, limit: int, w: real, clock: real)
  {
    forall user: int :: KeptFor(user, events, grants, limit, w, clock)
  }

  lemma KeptForSame(user: int, events: map<int, seq<real>>, grants: map<int, seq<real>>, q: seq<real>, g: seq<real>,
                    limit: int, w: real, clock: real)
    requires Kept(q, g, limit, w, clock) && Of(events, user) == q && Of(grants, user) == g
    ensures KeptFor(user, events, grants, limit, w, clock)
  {
  }

  /** One user's call disturbs no other user. */
  lemma KeptUpdate(events: map<int, seq<real>>, grants: map<int, seq<real>>, limit: int, w: real, clock: real,
                   user: int, q: seq<real>, g: seq<real>, t: real)
    requires AllKept(events, grants, limit, w, clock) && clock <= t && Kept(q, g, limit, w, t)
    ensures AllKept(events[user := q], grants[user := g], limit, w, t)
  {
    var events', grants' := events[user := q], grants[user := g];
    forall other ensures KeptFor(other, events', grants', limit, w, t) {
      if other == user {
        KeptForSame(user, events', grants', q, g, limit, w, t);
      } else {
        assert KeptFor(other, events, grants, limit, w, clock);
        KeptLater(Of(events, other), Of(grants, other), limit, w, clock, t);
        KeptForSame(other, events', grants', Of(events, other), Of(grants, other), limit, w, t);
      }
    }
  }

  lemma KeptLater(q: seq<real>, g: seq<real>, limit: int, w: real, clock: real, t: real)
    requires Kept(q, g, limit, w, clock) && clock <= t
    ensures Kept(q, g, limit, w, t)
  {
  }

  /** What pruning at `t` leaves is as long as the window is full. */
  lemma Pruned(q: seq<real>, g: seq<real>, limit: int, w: real, clock: real, t: real)
    requires Kept(q, g, limit, w, clock) && clock <= t
    ensures var r := Prune(q, t - w); Kept(r, g, limit, w, t) && |r| == Load(g, w, t) && (r != [] ==> t - w < r[0])
  {
    PruneHolds(q, g, clock, w, t);
    var r := Prune(q, t - w);
    PrunedCount(r, g, t, w);
    assert r != [] ==> r[0] in r;
  }

  lemma LoadAtMost(q: seq<real>, g: seq<real>, limit: int, w: real, t: real)
    requires Kept(q, g, limit, w, t)
    ensures Load(g, w, t) <= Most(limit)
  {
    AtMostLimit(g, Most(limit), w, t - w, t);
  }

  lemma KeptSnoc(q: seq<real>, g: seq<real>, limit: int, w: real, t: real)
    requires Kept(q, g, limit, w, t) && |q| < limit
    ensures Kept(q + [t], g + [t], limit, w, t)
  {
    SpacedSnoc(q, g, t, w, Most(limit));
  }

  /** From time `t` on, with no grant in between, the window holds fewer than `n` grants exactly
      from `when` on. */
  ghost predicate Opens(g: seq<real>, n: nat, w: real, t: real, when: real)
  {
    forall t' :: t <= t' ==> (Load(g, w, t') < n <==> when <= t')
  }

  lemma WhenOpens(q: seq<real>, g: seq<real>, t: real, w: real)
    requires Holds(q, g, t, w) && q != []
    ensures Opens(g, |q|, w, t, q[0] + w)
  {
    forall t' | t <= t' ensures Load(g, w, t') < |q| <==> q[0] + w <= t' {
      NextGrant(q, g, t, w, t');
    }
  }

  /** The reply to one call; Crashed is the IndexError raised by `q[0]` on an empty queue. */
  datatype Reply = Granted | Refused(retryAfter: real) | Crashed

  /** Granted exactly below the limit, crashed exactly for a limit that is not positive; a refusal means
      a full window, and the wait it names is exact: with no grant in between, a call is granted from
      that moment on and not before. */
  ghost predicate Answers(r: Reply, g: seq<real>, limit: int, w: real, t: real)
  {
    && (r.Granted? <==> Load(g, w, t) < limit) && (r.Crashed? <==> limit <= 0)
    && (r.Refused? ==> Load(g, w, t) == limit && 0.0 < r.retryAfter && Opens(g, limit, w, t, t + r.retryAfter))
  }

  /** The reply on what pruning left. */
  function ReplyOn(q: seq<real>, limit: int, w: real, t: real): Reply
  {
    if |q| < limit then Granted
    else if q == [] then Crashed
    else
      var wait := w - (t - q[0]);
      Refused(if wait < 0.0 then 0.0 else wait)
  }

  lemma ReplyAnswers(q: seq<real>, g: seq<real>, limit: int, w: real, t: real)
    requires Kept(q, g, limit, w, t) && |q| == Load(g, w, t) && (q != [] ==> t - w < q[0])
    ensures Answers(ReplyOn(q, limit, w, t), g, limit, w, t)
  {
    LoadAtMost(q, g, limit, w, t);
    if q != [] {
      WhenOpens(q, g, t, w);
      assert t + (w - (t - q[0])) == q[0] + w;
    }
  }

  /** What a call with this reply appends. */
  function Entry(r: Reply, t: real): seq<real>
  {
    if r.Granted? then [t] else []
  }

  /** One call, on the queues and on the full history of grants: the reply on what pruning leaves, and
      what it keeps. */
  lemma Serve(events: map<int, seq<real>>, grants: map<int, seq<real>>, limit: int, w: real, clock: real, user: int,
              t: real)
    requires AllKept(events, grants, limit, w, clock) && clock <= t
    ensures var g, q := Of(grants, user), Prune(Of(events, user), t - w);
            var r := ReplyOn(q, limit, w, t);
            && Answers(r, g, limit, w, t)
            && AllKept(events[user := q + Entry(r, t)], grants[user := g + Entry(r, t)], limit, w, t)
  {
    assert KeptFor(user, events, grants, limit, w, clock);
    var g, q := Of(grants, user), Prune(Of(events, user), t - w);
    Pruned(Of(events, user), g, limit, w, clock, t);
    ReplyAnswers(q, g, limit, w, t);
    if |q| < limit { KeptSnoc(q, g, limit, w, t); } else { assert q + [] == q && g + [] == g; }
    var more := Entry(ReplyOn(q, limit, w, t), t);
    KeptUpdate(events, grants, limit, w, clock, user, q + more, g + more, t);
  }

  /** The popping loop. */
  method PopExpired(entries: seq<real>, cutoff: real) returns (q: seq<real>)
    ensures q == Prune(entries, cutoff)
  {
    q := entries;
    while q != [] && q[0] <= cutoff
      invariant Prune(q, cutoff) == Prune(entries, cutoff)
      decreases |q|
    {
      q := q[1..];
    }
  }

  class UserRateLimiter {
    const limit: int
    const windowS: real
    var events: map<int, seq<real>>

    // Every call ever granted, by user, and the latest time passed in
    ghost var grants: map<int, seq<real>>
    ghost var clock: real

    constructor (limit: int, windowS: real, ghost now: real)
      ensures Valid() && this.limit == limit && this.windowS == windowS && grants == map[] && clock == now
    {
      this.limit, this.windowS := limit, windowS;
      events, grants, clock := map[], map[], now;
    }

    ghost predicate Valid()
      reads this
    {
      AllKept(events, grants, limit, windowS, clock)
    }

    /** `allow`. The decision is the one on the full history of grants. */
    method Allow(user: int, t: real) returns (r: Reply)
      requires Valid() && clock <= t
      modifies this
      ensures Valid() && clock == t
      ensures grants == old(grants)[user := Of(old(grants), user) + Entry(r, t)]
      ensures Answers(r, old(Of(grants, user)), limit, windowS, t)
      ensures var g := if user in old(grants) then old(grants)[user] else [];
              && (r.Granted? <==> |set i | 0 <= i < |g| && t - windowS < g[i] <= t| < limit)
              && grants == old(grants)[user := if r.Granted? then g + [t] else g]
    {
      CountMeans(Of(grants, user), t - windowS, t);
      assert Of(grants, user) + [] == Of(grants, user);
      Serve(events, grants, limit, windowS, clock, user, t);
      var q := PopExpired(Of(events, user), t - windowS);
      ghost var left := q;
      if |q| < limit {
        q := q + [t];
        r := Granted;
      } else if q == [] {
        r := Crashed;
      } else {
        var wait := windowS - (t - q[0]);
        r := Refused(if wait < 0.0 then 0.0 else wait);
      }
      assert r == ReplyOn(left, limit, windowS, t) && q == left + Entry(r, t);
      events, grants, clock := events[user := q], grants[user := Of(grants, user) + Entry(r, t)], t;
    }

    /** In every reachable state and for every T, a user has at most `limit` grants in (T - w, T]. */
    lemma WindowsNeverOverfull(user: int, T: real)
      requires Valid() && 1 <= limit
      ensures Load(Of(grants, user), windowS, T) <= limit
    {
      assert KeptFor(user, events, grants, limit, windowS, clock);
      AtMostLimit(Of(grants, user), limit, windowS, T - windowS, T);
    }
  }
}
