/** Triangle enumeration of bot/core/graph.py: which cycles are found, in which order, how often. */
module TriCycles {
  import opened Numbers
  import opened SortedSets
  import opened TokenGraphs

  datatype Cycle = Cycle(a: Token, b: Token, c: Token)

  /** Python's order on 3-tuples. */
  predicate Before(x: Cycle, y: Cycle)
  {
    x.a < y.a || (x.a == y.a && (x.b < y.b || (x.b == y.b && x.c < y.c)))
  }

  function Min(x: Cycle, y: Cycle): Cycle { if Before(y, x) then y else x }

  function Normalize(a: Token, b: Token, c: Token): (m: Cycle)
  {
    Min(Min(Cycle(a, b, c), Cycle(b, c, a)), Cycle(c, a, b))
  }

  predicate Rotation(x: Cycle, y: Cycle)
  {
    y == x || y == Cycle(x.b, x.c, x.a) || y == Cycle(x.c, x.a, x.b)
  }

  /** A directed 3-cycle of the graph on three different tokens. */
  predicate IsCycle(adj: Adjacency, x: Cycle)
  {
    && x.a != x.b && x.b != x.c && x.c != x.a
    && x.a in adj && x.b in adj[x.a] && x.b in adj && x.c in adj[x.b] && x.c in adj && x.a in adj[x.c]
  }

  /** A cycle written with its smallest token first. */
  predicate Canonical(adj: Adjacency, x: Cycle)
  {
    IsCycle(adj, x) && x.a < x.b && x.a < x.c
  }

  lemma NormalizeIsCanonical(adj: Adjacency, x: Cycle)
    requires IsCycle(adj, x)
    ensures var m := Normalize(x.a, x.b, x.c);
            Canonical(adj, m) && Rotation(x, m) && (Canonical(adj, x) ==> m == x)
  {
  }

  function Prefix(s: seq<Token>, n: nat): (p: seq<Token>)
    requires Ascending(s)
    ensures Ascending(p)
  {
    if n < |s| then s[..n] else s
  }

  /** `graph.tokens()[: max(1, max_start_tokens)]` */
  function Starts(adj: Adjacency, maxStart: int): (s: seq<Token>)
    ensures Ascending(s)
  {
    Prefix(Sorted(TokenSet(adj)), Max(1, maxStart))
  }

  /** The token is the source or the destination of an edge. */
  ghost predicate InGraph(adj: Adjacency, t: Token)
  {
    t in adj || exists u :: u in adj && t in adj[u]
  }

  ghost predicate SmallerTokens(adj: Adjacency, t: Token, smaller: set<Token>)
  {
    forall u :: u in smaller <==> InGraph(adj, u) && u < t
  }

  /** An admitted start: a token of the graph with fewer smaller ones than starts are asked for; the
      least token is always admitted. */
  ghost predicate IsStart(adj: Adjacency, maxStart: int, t: Token)
  {
    && InGraph(adj, t)
    && exists smaller :: SmallerTokens(adj, t, smaller) && |smaller| < if maxStart < 1 then 1 else maxStart
  }

  /** What the search looks for: canonical cycles whose smallest token is an admitted start. */
  ghost predicate Eligible(adj: Adjacency, maxStart: int, x: Cycle)
  {
    Canonical(adj, x) && IsStart(adj, maxStart, x.a)
  }

  ghost predicate Increasing(s: seq<Cycle>)
  {
    forall i, j :: 0 <= i < j < |s| ==> Before(s[i], s[j])
  }

  /** `out` lists the first `cap` eligible cycles in increasing order: sorted, sound, cut only by
      the cap, and with nothing eligible missing below any listed cycle. */
  ghost predicate FirstCycles(adj: Adjacency, maxStart: int, cap: int, out: seq<Cycle>)
  {
    && Increasing(out)
    && |out| <= cap
    && (forall x :: x in out ==> Eligible(adj, maxStart, x))
    && (|out| < cap ==> forall x :: Eligible(adj, maxStart, x) ==> x in out)
    && (forall x, i :: Eligible(adj, maxStart, x) && 0 <= i < |out| && Before(x, out[i]) ==> x in out)
  }

  // Where the three loops stand: everything canonical below the position has been listed

  datatype Position =
    | AtStart(i: nat)
    | AtMiddle(i: nat, bs: seq<Token>, j: nat)
    | AtLast(i: nat, bs: seq<Token>, j: nat, cs: seq<Token>, k: nat)

  /** `x` is among the first `n` elements of an ascending list. */
  predicate Passed(s: seq<Token>, n: nat, x: Token)
  {
    x in s && (n < |s| ==> x < s[n])
  }

  lemma PassOne(s: seq<Token>, n: nat, x: Token)
    requires Ascending(s) && n < |s|
    ensures Passed(s, n + 1, x) <==> Passed(s, n, x) || x == s[n]
  {
  }

  predicate Done(starts: seq<Token>, p: Position, x: Cycle)
  {
    Passed(starts, p.i, x.a) ||
    (!p.AtStart? && p.i < |starts| && x.a == starts[p.i] &&
      (Passed(p.bs, p.j, x.b) ||
        (p.AtLast? && p.j < |p.bs| && x.b == p.bs[p.j] && Passed(p.cs, p.k, x.c))))
  }

  ghost predicate Listed(adj: Adjacency, starts: seq<Token>, p: Position, out: seq<Cycle>)
  {
    Increasing(out) && forall x :: x in out <==> Canonical(adj, x) && Done(starts, p, x)
  }

  /** The list is that of the admitted starts. */
  ghost predicate AreStarts(adj: Adjacency, starts: seq<Token>, maxStart: int)
  {
    Ascending(starts) && forall t :: t in starts <==> IsStart(adj, maxStart, t)
  }

  /** The starts leave out no token below one of their own. */
  ghost predicate ReachesDown(adj: Adjacency, starts: seq<Token>)
  {
    forall y, l :: y in TokenSet(adj) && 0 <= l < |starts| && y < starts[l] ==> y in starts
  }

  /** The position the loops look at: starts, middles and lasts are the sorted neighbour lists. */
  ghost predicate Scanning(adj: Adjacency, starts: seq<Token>, p: Position)
  {
    && Ascending(starts) && ReachesDown(adj, starts) && p.AtLast? && p.i < |starts| && p.j < |p.bs| && p.k < |p.cs|
    && Ascending(p.bs) && Elements(p.bs) == Neighbors(adj, starts[p.i])
    && Ascending(p.cs) && Elements(p.cs) == Neighbors(adj, p.bs[p.j])
  }

  ghost function Next(p: Position): Position
    requires p.AtLast?
  {
    AtLast(p.i, p.bs, p.j, p.cs, p.k + 1)
  }

  ghost function At(starts: seq<Token>, p: Position): Cycle
    requires p.AtLast? && p.i < |starts| && p.j < |p.bs| && p.k < |p.cs|
  {
    Cycle(starts[p.i], p.bs[p.j], p.cs[p.k])
  }

  lemma DoneNext(adj: Adjacency, starts: seq<Token>, p: Position, x: Cycle)
    requires Scanning(adj, starts, p)
    ensures Done(starts, Next(p), x) <==> Done(starts, p, x) || x == At(starts, p)
    ensures Done(starts, p, x) ==> Before(x, At(starts, p))
  {
    PassOne(p.cs, p.k, x.c);
  }

  /** A canonical cycle below the position has been passed. */
  lemma BeforeIsDone(adj: Adjacency, starts: seq<Token>, p: Position, x: Cycle)
    requires Scanning(adj, starts, p) && Canonical(adj, x) && Before(x, At(starts, p))
    ensures Done(starts, p, x)
  {
    assert x.a in TokenSet(adj);
    assert x.b in Neighbors(adj, x.a) && x.c in Neighbors(adj, x.b);
    if x.a == starts[p.i] {
      assert x.b in Elements(p.bs);
      if x.b == p.bs[p.j] {
        assert x.c in Elements(p.cs);
      }
    }
  }

  /** One turn of the innermost loop: a cycle closed here is either new and canonical, or a rotation
      of one already listed. */
  lemma LastStep(adj: Adjacency, starts: seq<Token>, p: Position, out: seq<Cycle>)
    requires Scanning(adj, starts, p) && Listed(adj, starts, p, out)
    ensures var x := At(starts, p);
            var m := Normalize(x.a, x.b, x.c);
            && (IsCycle(adj, x) && m !in out ==> m == x && Listed(adj, starts, Next(p), out + [x]))
            && (!IsCycle(adj, x) || m in out ==> Listed(adj, starts, Next(p), out))
  {
    var x, q := At(starts, p), Next(p);
    forall y ensures Done(starts, q, y) <==> Done(starts, p, y) || y == x {
      DoneNext(adj, starts, p, y);
    }
    if IsCycle(adj, x) {
      NormalizeIsCanonical(adj, x);
      var m := Normalize(x.a, x.b, x.c);
      if m != x {
        BeforeIsDone(adj, starts, p, m);
      } else {
        DoneNext(adj, starts, p, x);
        forall l | 0 <= l < |out| ensures Before(out[l], x) {
          assert out[l] in out;
          DoneNext(adj, starts, p, out[l]);
        }
      }
    }
  }

  lemma Rejected(adj: Adjacency, starts: seq<Token>, p: Position, out: seq<Cycle>)
    requires Scanning(adj, starts, p) && Listed(adj, starts, p, out)
    requires var x := At(starts, p);
             x.c == x.a || x.c == x.b || !HasEdge(adj, x.c, x.a) || Normalize(x.a, x.b, x.c) in out
    ensures Listed(adj, starts, AtLast(p.i, p.bs, p.j, p.cs, p.k + 1), out)
  {
    LastStep(adj, starts, p, out);
  }

  lemma Accepted(adj: Adjacency, starts: seq<Token>, p: Position, out: seq<Cycle>)
    requires Scanning(adj, starts, p) && Listed(adj, starts, p, out)
    requires var x := At(starts, p);
             IsCycle(adj, x) && Normalize(x.a, x.b, x.c) !in out
    ensures var x := At(starts, p);
            Normalize(x.a, x.b, x.c) == x && Listed(adj, starts, AtLast(p.i, p.bs, p.j, p.cs, p.k + 1), out + [x])
  {
    LastStep(adj, starts, p, out);
  }

  /** Stopping right after listing the cycle at the position leaves nothing out below it. */
  lemma StopIsComplete(adj: Adjacency, starts: seq<Token>, p: Position, out: seq<Cycle>, maxStart: int)
    requires Scanning(adj, starts, p) && AreStarts(adj, starts, maxStart)
    requires Listed(adj, starts, AtLast(p.i, p.bs, p.j, p.cs, p.k + 1), out)
    requires out != [] && out[|out| - 1] == At(starts, p)
    ensures FirstCycles(adj, maxStart, |out|, out)
  {
    var x, q := At(starts, p), Next(p);
    forall y | y in out ensures Eligible(adj, maxStart, y) {
      assert Done(starts, q, y);
    }
    forall y, l | Eligible(adj, maxStart, y) && 0 <= l < |out| && Before(y, out[l]) ensures y in out {
      assert Before(out[l], x) || out[l] == x;
      BeforeIsDone(adj, starts, p, y);
      DoneNext(adj, starts, p, y);
    }
  }

  lemma StartsReachDown(adj: Adjacency, maxStart: int)
    ensures ReachesDown(adj, Starts(adj, maxStart))
  {
    var tokens, starts := Sorted(TokenSet(adj)), Starts(adj, maxStart);
    forall y, l | y in TokenSet(adj) && 0 <= l < |starts| && y < starts[l] ensures y in starts {
      assert y in Elements(tokens);
      PrefixReachesDown(tokens, Max(1, maxStart), y, l);
    }
  }

  lemma PrefixReachesDown(s: seq<Token>, n: nat, y: Token, l: nat)
    requires Ascending(s) && y in s && l < |Prefix(s, n)| && y < Prefix(s, n)[l]
    ensures y in Prefix(s, n)
  {
    var h: nat :| h < |s| && s[h] == y;
    LowerIsEarlier(s, h, l);
    InPrefix(s, n, h);
  }

  lemma LowerIsEarlier(s: seq<Token>, h: nat, l: nat)
    requires Ascending(s) && h < |s| && l < |s| && s[h] < s[l]
    ensures h < l
  {
  }

  lemma {:induction false} AscendingCount(s: seq<int>)
    requires Ascending(s)
    ensures |Elements(s)| == |s|
  {
    if s == [] {
      assert Elements(s) == {};
    } else {
      var k := |s| - 1;
      AscendingCount(s[..k]);
      assert s[k] !in Elements(s[..k]);
      assert Elements(s) == Elements(s[..k]) + {s[k]};
    }
  }

  lemma TokenInGraph(adj: Adjacency, t: Token)
    ensures t in Sorted(TokenSet(adj)) <==> InGraph(adj, t)
  {
    assert t in Sorted(TokenSet(adj)) <==> t in Elements(Sorted(TokenSet(adj)));
  }

  lemma LowerInFront(s: seq<Token>, h: nat, u: Token)
    requires Ascending(s) && h < |s|
    ensures u in Elements(s[..h]) <==> u in s && u < s[h]
  {
    if u in s && u < s[h] {
      var l: nat :| l < |s| && s[l] == u;
      LowerIsEarlier(s, l, h);
      assert s[..h][l] == u;
    }
  }

  /** The token at place h has h smaller ones. */
  lemma SmallerThanAt(adj: Adjacency, h: nat)
    requires h < |Sorted(TokenSet(adj))|
    ensures var tokens := Sorted(TokenSet(adj));
            SmallerTokens(adj, tokens[h], Elements(tokens[..h])) && |Elements(tokens[..h])| == h
  {
    var tokens := Sorted(TokenSet(adj));
    forall u ensures u in Elements(tokens[..h]) <==> InGraph(adj, u) && u < tokens[h] {
      TokenInGraph(adj, u);
      LowerInFront(tokens, h, u);
    }
    AscendingCount(tokens[..h]);
  }

  lemma SmallerCount(adj: Adjacency, h: nat, smaller: set<Token>)
    requires h < |Sorted(TokenSet(adj))| && SmallerTokens(adj, Sorted(TokenSet(adj))[h], smaller)
    ensures |smaller| == h
  {
    SmallerThanAt(adj, h);
    SameMembers(smaller, Elements(Sorted(TokenSet(adj))[..h]));
  }

  lemma SameMembers(s: set<Token>, t: set<Token>)
    requires forall u :: u in s <==> u in t
    ensures s == t
  {
    assert s <= t by { forall u | u in s ensures u in t {} }
    assert t <= s by { forall u | u in t ensures u in s {} }
  }

  lemma InPrefix(s: seq<Token>, n: nat, h: nat)
    requires Ascending(s) && h < |s|
    ensures s[h] in Prefix(s, n) <==> h < n
  {
    if h < n { assert Prefix(s, n)[h] == s[h]; }
    if s[h] in Prefix(s, n) {
      var l: nat :| l < |Prefix(s, n)| && Prefix(s, n)[l] == s[h];
      assert s[l] == s[h];
    }
  }

  lemma PrefixWithin(s: seq<Token>, n: nat, x: Token)
    requires Ascending(s)
    ensures x in Prefix(s, n) ==> x in s
  {
  }

  lemma StartIff(adj: Adjacency, maxStart: int, t: Token)
    ensures t in Starts(adj, maxStart) <==> IsStart(adj, maxStart, t)
  {
    TokenInGraph(adj, t);
    var tokens := Sorted(TokenSet(adj));
    PrefixWithin(tokens, Max(1, maxStart), t);
    if t in tokens {
      var h: nat :| h < |tokens| && tokens[h] == t;
      StartAt(adj, maxStart, h);
    }
  }

  lemma StartAt(adj: Adjacency, maxStart: int, h: nat)
    requires h < |Sorted(TokenSet(adj))|
    ensures var t := Sorted(TokenSet(adj))[h]; t in Starts(adj, maxStart) <==> IsStart(adj, maxStart, t)
  {
    var tokens := Sorted(TokenSet(adj));
    var t := tokens[h];
    assert t in tokens;
    TokenInGraph(adj, t);
    InPrefix(tokens, Max(1, maxStart), h);
    SmallerThanAt(adj, h);
    forall smaller | SmallerTokens(adj, t, smaller) ensures |smaller| == h { SmallerCount(adj, h, smaller); }
  }

  lemma StartsAreStarts(adj: Adjacency, maxStart: int)
    ensures AreStarts(adj, Starts(adj, maxStart), maxStart)
  {
    forall t ensures t in Starts(adj, maxStart) <==> IsStart(adj, maxStart, t) { StartIff(adj, maxStart, t); }
  }

  function Members(s: seq<Cycle>): set<Cycle>
  {
    set x | x in s
  }

  lemma MembersSnoc(s: seq<Cycle>, c: Cycle)
    ensures Members(s + [c]) == Members(s) + {c}
  {
  }

  method SortedNeighbors(graph: TokenGraph, a: Token) returns (s: seq<Token>)
    ensures Ascending(s) && Elements(s) == Neighbors(graph.adjacency, a)
  {
    s := Sorted(Neighbors(graph.adjacency, a));
  }

  /** The innermost loop of `find_tri_cycles`, for one pair (a, b): every closing token in order.
      `full` is the early return once the cap is reached. */
  method ScanLasts(graph: TokenGraph, starts: seq<Token>, i: nat, bs: seq<Token>, j: nat, cs: seq<Token>,
                   out0: seq<Cycle>, seen0: set<Cycle>, maxCycles: int, ghost maxStart: int)
    returns (out: seq<Cycle>, seen: set<Cycle>, full: bool)
    requires AreStarts(graph.adjacency, starts, maxStart) && ReachesDown(graph.adjacency, starts)
    requires i < |starts| && j < |bs| && bs[j] != starts[i] && Ascending(bs) && Ascending(cs)
    requires Elements(bs) == Neighbors(graph.adjacency, starts[i]) && Elements(cs) == Neighbors(graph.adjacency, bs[j])
    requires seen0 == Members(out0) && |out0| < Max(1, maxCycles)
    requires Listed(graph.adjacency, starts, AtMiddle(i, bs, j), out0)
    ensures full ==> FirstCycles(graph.adjacency, maxStart, Max(1, maxCycles), out)
    ensures !full ==> seen == Members(out) && |out| < Max(1, maxCycles)
    ensures !full ==> Listed(graph.adjacency, starts, AtLast(i, bs, j, cs, |cs|), out)
  {
    ghost var adj := graph.adjacency;
    out, seen, full := out0, seen0, false;
    var a, b := starts[i], bs[j];
    var k := 0;
    LastsBegin(adj, starts, i, bs, j, cs, out);
    while k < |cs|
      invariant k <= |cs|
      invariant seen == Members(out) && |out| < Max(1, maxCycles)
      invariant Listed(adj, starts, AtLast(i, bs, j, cs, k), out)
    {
      var c := cs[k];
      ghost var p := AtLast(i, bs, j, cs, k);
      EdgesOfPosition(adj, starts, p);
      k := k + 1;
      if c == a || c == b {
        Rejected(adj, starts, p, out);
        continue;
      }
      if !HasEdge(graph.adjacency, c, a) {
        Rejected(adj, starts, p, out);
        continue;
      }
      var cyc := Normalize(a, b, c);
      assert At(starts, p) == Cycle(a, b, c);
      if cyc in seen {
        Rejected(adj, starts, p, out);
        continue;
      }
      Accepted(adj, starts, p, out);
      assert cyc == At(starts, p);
      MembersSnoc(out, cyc);
      seen := seen + {cyc};
      out := out + [cyc];
      if |out| >= maxCycles {
        StopIsComplete(adj, starts, p, out, maxStart);
        full := true;
        return;
      }
    }
  }

  /** The middle loop. */
  method ScanMiddles(graph: TokenGraph, starts: seq<Token>, i: nat, bs: seq<Token>,
                     out0: seq<Cycle>, seen0: set<Cycle>, maxCycles: int, ghost maxStart: int)
    returns (out: seq<Cycle>, seen: set<Cycle>, full: bool)
    requires i < |starts| && AreStarts(graph.adjacency, starts, maxStart) && ReachesDown(graph.adjacency, starts)
    requires Ascending(bs) && Elements(bs) == Neighbors(graph.adjacency, starts[i])
    requires seen0 == Members(out0) && |out0| < Max(1, maxCycles)
    requires Listed(graph.adjacency, starts, AtStart(i), out0)
    ensures full ==> FirstCycles(graph.adjacency, maxStart, Max(1, maxCycles), out)
    ensures !full ==> seen == Members(out) && |out| < Max(1, maxCycles)
    ensures !full ==> Listed(graph.adjacency, starts, AtMiddle(i, bs, |bs|), out)
  {
    ghost var adj := graph.adjacency;
    out, seen, full := out0, seen0, false;
    var j := 0;
    MiddlesBegin(adj, starts, i, bs, out);
    while j < |bs|
      invariant j <= |bs| && !full
      invariant seen == Members(out) && |out| < Max(1, maxCycles)
      invariant Listed(adj, starts, AtMiddle(i, bs, j), out)
    {
      var b := bs[j];
      if b == starts[i] {
        SkipMiddle(adj, starts, i, bs, j, out);
        j := j + 1;
        continue;
      }
      var cs := SortedNeighbors(graph, b);
      out, seen, full := ScanLasts(graph, starts, i, bs, j, cs, out, seen, maxCycles, maxStart);
      if full { return; }
      MiddleDone(adj, starts, i, bs, j, cs, out);
      j := j + 1;
    }
  }

  /** `find_tri_cycles`, for any caps. A non-positive cap still lets one cycle through, because the
      cap is only looked at after a cycle has been listed. */
  method FindTriCycles(graph: TokenGraph, maxCycles: int, maxStartTokens: int) returns (out: seq<Cycle>)
    ensures FirstCycles(graph.adjacency, maxStartTokens, if maxCycles < 1 then 1 else maxCycles, out)
  {
    ghost var adj := graph.adjacency;
    out := [];
    var seen: set<Cycle> := {};
    var starts := Starts(graph.adjacency, maxStartTokens);
    var i := 0;
    StartsReachDown(adj, maxStartTokens);
    StartsAreStarts(adj, maxStartTokens);
    StartsBegin(adj, starts);
    while i < |starts|
      invariant i <= |starts|
      invariant seen == Members(out) && |out| < Max(1, maxCycles)
      invariant Listed(adj, starts, AtStart(i), out)
    {
      var a := starts[i];
      var bs := SortedNeighbors(graph, a);
      var full: bool;
      out, seen, full := ScanMiddles(graph, starts, i, bs, out, seen, maxCycles, maxStartTokens);
      if full { return; }
      StartDone(adj, starts, i, bs, out);
      i := i + 1;
    }
    AllScanned(adj, starts, out, maxStartTokens);
  }

  lemma AllScanned(adj: Adjacency, starts: seq<Token>, out: seq<Cycle>, maxStart: int)
    requires Listed(adj, starts, AtStart(|starts|), out) && AreStarts(adj, starts, maxStart)
    ensures forall cap :: |out| <= cap ==> FirstCycles(adj, maxStart, cap, out)
  {
  }

  lemma EdgesOfPosition(adj: Adjacency, starts: seq<Token>, p: Position)
    requires Scanning(adj, starts, p)
    ensures HasEdge(adj, starts[p.i], p.bs[p.j]) && HasEdge(adj, p.bs[p.j], p.cs[p.k])
  {
    assert p.bs[p.j] in Elements(p.bs) && p.cs[p.k] in Elements(p.cs);
  }

  lemma SkipMiddle(adj: Adjacency, starts: seq<Token>, i: nat, bs: seq<Token>, j: nat, out: seq<Cycle>)
    requires i < |starts| && j < |bs| && bs[j] == starts[i] && Ascending(bs)
    requires Listed(adj, starts, AtMiddle(i, bs, j), out)
    ensures Listed(adj, starts, AtMiddle(i, bs, j + 1), out)
  {
    forall x ensures x in out <==> Canonical(adj, x) && Done(starts, AtMiddle(i, bs, j + 1), x) {
      PassOne(bs, j, x.b);
    }
  }

  lemma StartsBegin(adj: Adjacency, starts: seq<Token>)
    requires Ascending(starts)
    ensures Listed(adj, starts, AtStart(0), [])
  {
  }

  lemma MiddlesBegin(adj: Adjacency, starts: seq<Token>, i: nat, bs: seq<Token>, out: seq<Cycle>)
    requires Ascending(bs) && Listed(adj, starts, AtStart(i), out)
    ensures Listed(adj, starts, AtMiddle(i, bs, 0), out)
  {
    assert forall x :: Done(starts, AtMiddle(i, bs, 0), x) <==> Done(starts, AtStart(i), x);
  }

  lemma LastsBegin(adj: Adjacency, starts: seq<Token>, i: nat, bs: seq<Token>, j: nat, cs: seq<Token>, out: seq<Cycle>)
    requires Ascending(cs) && Listed(adj, starts, AtMiddle(i, bs, j), out)
    ensures Listed(adj, starts, AtLast(i, bs, j, cs, 0), out)
  {
    assert forall x :: Done(starts, AtLast(i, bs, j, cs, 0), x) <==> Done(starts, AtMiddle(i, bs, j), x);
  }

  lemma MiddleDone(adj: Adjacency, starts: seq<Token>, i: nat, bs: seq<Token>, j: nat, cs: seq<Token>, out: seq<Cycle>)
    requires i < |starts| && j < |bs| && Ascending(bs) && Elements(cs) == Neighbors(adj, bs[j])
    requires Listed(adj, starts, AtLast(i, bs, j, cs, |cs|), out)
    ensures Listed(adj, starts, AtMiddle(i, bs, j + 1), out)
  {
    forall x ensures x in out <==> Canonical(adj, x) && Done(starts, AtMiddle(i, bs, j + 1), x) {
      PassOne(bs, j, x.b);
      assert Canonical(adj, x) && x.b == bs[j] ==> x.c in Elements(cs);
    }
  }

  lemma StartDone(adj: Adjacency, starts: seq<Token>, i: nat, bs: seq<Token>, out: seq<Cycle>)
    requires i < |starts| && Ascending(starts) && Elements(bs) == Neighbors(adj, starts[i])
    requires Listed(adj, starts, AtMiddle(i, bs, |bs|), out)
    ensures Listed(adj, starts, AtStart(i + 1), out)
  {
    forall x ensures x in out <==> Canonical(adj, x) && Done(starts, AtStart(i + 1), x) {
      PassOne(starts, i, x.a);
      assert Canonical(adj, x) && x.a == starts[i] ==> x.b in Elements(bs);
    }
  }

  // What FirstCycles pins down

  /** A smaller cap gives a prefix of a larger one; with equal caps the result is unique. */
  lemma {:induction false} SmallerCapIsPrefix(adj: Adjacency, maxStart: int, cap: int, cap': int, out: seq<Cycle>,
                                              out': seq<Cycle>)
    requires cap <= cap' && FirstCycles(adj, maxStart, cap, out) && FirstCycles(adj, maxStart, cap', out')
    ensures out <= out' && (cap == cap' ==> out == out')
  {
    PrefixUpTo(adj, maxStart, cap, cap', out, out', |out|);
    if cap == cap' { PrefixUpTo(adj, maxStart, cap', cap, out', out, |out'|); }
  }

  lemma {:induction false} PrefixUpTo(adj: Adjacency, maxStart: int, cap: int, cap': int, out: seq<Cycle>,
                                      out': seq<Cycle>, n: nat)
    requires cap <= cap' && FirstCycles(adj, maxStart, cap, out) && FirstCycles(adj, maxStart, cap', out')
    requires n <= |out|
    ensures n <= |out'| && forall h :: 0 <= h < n ==> out[h] == out'[h]
  {
    if n > 0 {
      var l := n - 1;
      PrefixUpTo(adj, maxStart, cap, cap', out, out', l);
      SameNext(adj, maxStart, cap, cap', out, out', l);
    }
  }

  lemma SameNext(adj: Adjacency, maxStart: int, cap: int, cap': int, out: seq<Cycle>, out': seq<Cycle>, l: nat)
    requires cap <= cap' && FirstCycles(adj, maxStart, cap, out) && FirstCycles(adj, maxStart, cap', out')
    requires l < |out| && l <= |out'| && forall h :: 0 <= h < l ==> out[h] == out'[h]
    ensures l < |out'| && out[l] == out'[l]
  {
    var x := out[l];
    assert x in out;
    NotEarlier(out, out', l);
    assert l < |out'|;
    var y := out'[l];
    assert y in out';
    if Before(x, y) {
      InAndBelow(out', l, x);
    } else if Before(y, x) {
      InAndBelow(out, l, y);
    }
  }

  lemma NotEarlier(out: seq<Cycle>, out': seq<Cycle>, l: nat)
    requires Increasing(out) && l < |out| && l <= |out'| && forall h :: 0 <= h < l ==> out[h] == out'[h]
    ensures out[l] in out' ==> l < |out'|
  {
    if out[l] in out' {
      var h :| 0 <= h < |out'| && out'[h] == out[l];
    }
  }

  lemma InAndBelow(s: seq<Cycle>, l: nat, x: Cycle)
    requires Increasing(s) && l < |s| && x in s && Before(x, s[l])
    ensures exists h :: 0 <= h < l && s[h] == x
  {
    var h :| 0 <= h < |s| && s[h] == x;
    assert h < l;
  }

  /** No cycle is listed twice, not even in another rotation. */
  lemma NoDuplicateRotations(adj: Adjacency, maxStart: int, cap: int, out: seq<Cycle>, i: nat, j: nat)
    requires FirstCycles(adj, maxStart, cap, out) && i < j < |out|
    ensures !Rotation(out[i], out[j])
  {
    assert out[i] in out && out[j] in out;
  }

  /** A search stopped by neither cap finds every directed triangle of the graph, in one rotation. */
  lemma NothingMissed(adj: Adjacency, tokens: set<Token>, maxStart: int, cap: int, out: seq<Cycle>, x: Cycle)
    requires FirstCycles(adj, maxStart, cap, out) && |out| < cap
    requires (forall t :: t in tokens <==> InGraph(adj, t)) && |tokens| <= maxStart
    requires IsCycle(adj, x)
    ensures exists y :: y in out && Rotation(x, y)
  {
    NormalizeIsCanonical(adj, x);
    var m := Normalize(x.a, x.b, x.c);
    assert InGraph(adj, m.a);
    var smaller := set u | u in tokens && u < m.a;
    assert SmallerTokens(adj, m.a, smaller);
    FewerThan(smaller, tokens, m.a);
    assert Eligible(adj, maxStart, m) && m in out;
  }

  lemma FewerThan(s: set<Token>, t: set<Token>, x: Token)
    requires s <= t && x in t && x !in s
    ensures |s| < |t|
  {
    CountSubset(s, t - {x});
  }

  lemma {:induction false} CountSubset(s: set<Token>, t: set<Token>)
    requires s <= t
    ensures |s| <= |t|
    decreases |s|
  {
    if s != {} {
      Inhabited(s);
      var x :| x in s;
      CountSubset(s - {x}, t - {x});
    }
  }

  /** In a bidirectional graph an uncapped search finds both orientations of each triangle. */
  lemma BothOrientations(adj: Adjacency, rows: seq<Row>, enabled: set<Dex>, maxStart: int, cap: int,
                         out: seq<Cycle>, x: Cycle)
    requires IsGraphOf(adj, FactsOf(rows, true), enabled)
    requires FirstCycles(adj, maxStart, cap, out) && |out| < cap
    ensures x in out <==> Cycle(x.a, x.c, x.b) in out
  {
    BidirectionalIsSymmetric(adj, rows, enabled);
    forall y | Eligible(adj, maxStart, y) ensures Eligible(adj, maxStart, Cycle(y.a, y.c, y.b)) {
      SymmetricCycle(adj, maxStart, y);
    }
    assert Cycle(x.a, x.c, x.b).(b := x.b, c := x.c) == x;
  }

  lemma SymmetricCycle(adj: Adjacency, maxStart: int, x: Cycle)
    requires Symmetric(adj) && Eligible(adj, maxStart, x)
    ensures Eligible(adj, maxStart, Cycle(x.a, x.c, x.b))
  {
  }
}
