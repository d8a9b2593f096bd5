/** Token graph construction and triangle enumeration of bot/core/graph.py. */
module TokenGraphs {
  import opened Numbers
  import opened SortedSets

  /** A stripped, non-empty token name; only its order and equality matter here. */
  type Token = int

  /** A raw name: blank after stripping, or a token. */
  datatype Name = Blank | Named(token: Token)

  /** A venue name; only equality matters. */
  type Dex = int

  datatype Edge = Edge(dexes: set<Dex>, sizes: seq<int>, liquidityUsd: real)

  type Adjacency = map<Token, map<Token, Edge>>

  datatype Row = Row(tokenIn: Name, tokenOut: Name, sizes: seq<int>, liquidityUsd: real)

  // The graph as a value

  predicate HasEdge(adj: Adjacency, a: Token, b: Token)
  {
    a in adj && b in adj[a]
  }

  function TokenSet(adj: Adjacency): set<Token>
  {
    adj.Keys + set a, b | a in adj && b in adj[a] :: b
  }

  function Neighbors(adj: Adjacency, a: Token): set<Token>
  {
    if a in adj then adj[a].Keys else {}
  }

  function Positives(sizes: seq<int>): set<int>
  {
    set x | x in sizes && x > 0
  }

  function EdgeOrNew(adj: Adjacency, a: Token, b: Token): Edge
  {
    if HasEdge(adj, a, b) then adj[a][b] else Edge({}, [], 0.0)
  }

  /** The adjacency after `add_edge`; a blank end leaves it alone. */
  function WithEdge(adj: Adjacency, src: Name, dst: Name, dexes: set<Dex>, sizes: seq<int>,
                    liquidityUsd: real): Adjacency
  {
    if src.Blank? || dst.Blank? then adj else
      var s, d := src.token, dst.token;
      var edge := EdgeOrNew(adj, s, d);
      var node := if s in adj then adj[s] else map[];
      adj[s := node[d := Edge(edge.dexes + dexes,
                              Sorted(Elements(edge.sizes) + Positives(sizes)),
                              MaxReal(edge.liquidityUsd, liquidityUsd))]]
  }

  /** One edge may be new, and all others are as before. */
  ghost predicate OthersKept(adj: Adjacency, adj': Adjacency, a: Token, b: Token)
  {
    && a in adj' && b in adj'[a]
    && (forall x :: x in adj' <==> x in adj || x == a)
    && (forall x, y :: x in adj' ==> (y in adj'[x] <==> (x in adj && y in adj[x]) || (x == a && y == b)))
    && (forall x, y :: x in adj && y in adj[x] && !(x == a && y == b) ==> adj'[x][y] == adj[x][y])
  }

  /** The edge has the venues and positive sizes added to what it had, sizes in strictly ascending order,
      and the larger of both liquidities. */
  ghost predicate Merged(before: Edge, dexes: set<Dex>, sizes: seq<int>, liq: real, e: Edge)
  {
    && (forall d :: d in e.dexes <==> d in dexes || d in before.dexes)
    && (forall i, j :: 0 <= i < j < |e.sizes| ==> e.sizes[i] < e.sizes[j])
    && (forall v :: v in e.sizes <==> (v in sizes && 0 < v) || v in before.sizes)
    && liq <= e.liquidityUsd && before.liquidityUsd <= e.liquidityUsd
    && (e.liquidityUsd == liq || e.liquidityUsd == before.liquidityUsd)
  }

  ghost predicate EdgeAdded(adj: Adjacency, adj': Adjacency, a: Token, b: Token, dexes: set<Dex>, sizes: seq<int>,
                            liq: real)
  {
    && OthersKept(adj, adj', a, b)
    && Merged(if a in adj && b in adj[a] then adj[a][b] else Edge({}, [], 0.0), dexes, sizes, liq, adj'[a][b])
  }

  lemma SortedMerge(before: Edge, dexes: set<Dex>, sizes: seq<int>, liq: real)
    ensures Merged(before, dexes, sizes, liq,
            Edge(before.dexes + dexes, Sorted(Elements(before.sizes) + Positives(sizes)),
                                                   MaxReal(before.liquidityUsd, liq)))
  {
    var s := Sorted(Elements(before.sizes) + Positives(sizes));
    forall v ensures v in s <==> (v in sizes && 0 < v) || v in before.sizes {
      assert v in s <==> v in Elements(s);
    }
  }

  lemma WithEdgeMeans(adj: Adjacency, a: Token, b: Token, dexes: set<Dex>, sizes: seq<int>, liq: real)
    ensures EdgeAdded(adj, WithEdge(adj, Named(a), Named(b), dexes, sizes, liq), a, b, dexes, sizes, liq)
  {
    var before := EdgeOrNew(adj, a, b);
    SortedMerge(before, dexes, sizes, liq);
    PutEdge(adj, a, b, Edge(before.dexes + dexes, Sorted(Elements(before.sizes) + Positives(sizes)),
                            MaxReal(before.liquidityUsd, liq)));
  }

  lemma PutEdge(adj: Adjacency, a: Token, b: Token, e: Edge)
    ensures var adj' := adj[a := (if a in adj then adj[a] else map[])[b := e]];
            OthersKept(adj, adj', a, b) && adj'[a][b] == e
  {
  }

  class TokenGraph {
    var adjacency: Adjacency

    constructor ()
      ensures adjacency == map[]
    {
      adjacency := map[];
    }

    method AddEdge(src: Name, dst: Name, dexes: set<Dex>, sizes: seq<int>, liquidityUsd: real)
      modifies this
      ensures adjacency == WithEdge(old(adjacency), src, dst, dexes, sizes, liquidityUsd)
      ensures src.Blank? || dst.Blank? ==> adjacency == old(adjacency)
      ensures src.Named? && dst.Named? ==>
                EdgeAdded(old(adjacency), adjacency, src.token, dst.token, dexes, sizes, liquidityUsd)
    {
      if src.Named? && dst.Named? {
        WithEdgeMeans(adjacency, src.token, dst.token, dexes, sizes, liquidityUsd);
      }
      if src.Blank? || dst.Blank? { return; }
      var s, d := src.token, dst.token;
      var node := if s in adjacency then adjacency[s] else map[];
      var edge := if d in node then node[d] else Edge({}, [], 0.0);
      edge := edge.(dexes := edge.dexes + dexes);
      edge := edge.(sizes := Sorted(Elements(edge.sizes) + Positives(sizes)));
      edge := edge.(liquidityUsd := MaxReal(edge.liquidityUsd, liquidityUsd));
      adjacency := adjacency[s := node[d := edge]];
    }
  }

  // What a universe of rows says about each edge

  /** One directed statement of a row: these sizes and this liquidity from `src` to `dst`. */
  datatype Fact = Fact(src: Token, dst: Token, sizes: set<int>, liquidityUsd: real)

  predicate Usable(r: Row) { r.tokenIn.Named? && r.tokenOut.Named? }

  function Forward(r: Row): Fact
    requires Usable(r)
  {
    Fact(r.tokenIn.token, r.tokenOut.token, Positives(r.sizes), r.liquidityUsd)
  }

  function Backward(r: Row): Fact
    requires Usable(r)
  {
    Fact(r.tokenOut.token, r.tokenIn.token, Positives(r.sizes), r.liquidityUsd)
  }

  ghost function FactsOf(rows: seq<Row>, bidirectional: bool): set<Fact>
  {
    (set r | r in rows && Usable(r) :: Forward(r)) +
    (if bidirectional then set r | r in rows && Usable(r) :: Backward(r) else {})
  }

  ghost predicate Linked(facts: set<Fact>, a: Token, b: Token)
  {
    exists f :: f in facts && f.src == a && f.dst == b
  }

  ghost function SizesFor(facts: set<Fact>, a: Token, b: Token): set<int>
  {
    set f, x | f in facts && f.src == a && f.dst == b && x in f.sizes :: x
  }

  /** `liq` is the largest liquidity stated for this edge, or zero if that is larger. */
  ghost predicate IsLiquidity(facts: set<Fact>, a: Token, b: Token, liq: real)
  {
    && (liq == 0.0 || exists f :: f in facts && f.src == a && f.dst == b && f.liquidityUsd == liq)
    && 0.0 <= liq
    && forall f :: f in facts && f.src == a && f.dst == b ==> f.liquidityUsd <= liq
  }

  ghost predicate IsEdge(facts: set<Fact>, enabled: set<Dex>, a: Token, b: Token, e: Edge)
  {
    && e.dexes == enabled
    && Ascending(e.sizes) && Elements(e.sizes) == SizesFor(facts, a, b)
    && IsLiquidity(facts, a, b, e.liquidityUsd)
  }

  /** The graph that a set of facts stands for, edge by edge. */
  ghost predicate IsGraphOf(adj: Adjacency, facts: set<Fact>, enabled: set<Dex>)
  {
    && (forall a :: a in adj ==> exists b :: HasEdge(adj, a, b))
    && (forall a, b :: HasEdge(adj, a, b) <==> Linked(facts, a, b))
    && (forall a, b :: HasEdge(adj, a, b) ==> IsEdge(facts, enabled, a, b, adj[a][b]))
  }

  lemma AddFact(adj: Adjacency, facts: set<Fact>, enabled: set<Dex>, a: Token, b: Token, sizes: seq<int>, liq: real)
    requires IsGraphOf(adj, facts, enabled)
    ensures IsGraphOf(WithEdge(adj, Named(a), Named(b), enabled, sizes, liq),
                      facts + {Fact(a, b, Positives(sizes), liq)}, enabled)
  {
    var f := Fact(a, b, Positives(sizes), liq);
    var facts', adj' := facts + {f}, WithEdge(adj, Named(a), Named(b), enabled, sizes, liq);
    forall x, y ensures HasEdge(adj', x, y) <==> Linked(facts', x, y) {
      EdgeAfter(adj, a, b, enabled, sizes, liq, x, y);
      LinkedMore(facts, f, x, y);
    }
    forall x | x in adj' ensures exists y :: HasEdge(adj', x, y) {
      if x == a {
        assert HasEdge(adj', a, b);
      } else {
        var y :| HasEdge(adj, x, y);
        assert HasEdge(adj', x, y);
      }
    }
    forall x, y | HasEdge(adj', x, y) ensures IsEdge(facts', enabled, x, y, adj'[x][y]) {
      EdgeAfter(adj, a, b, enabled, sizes, liq, x, y);
      if x == a && y == b {
        assert HasEdge(adj, a, b) <==> Linked(facts, a, b);
        MergedEdge(facts, enabled, EdgeOrNew(adj, a, b), HasEdge(adj, a, b), f, sizes, adj'[a][b]);
      } else {
        OtherEdge(facts, enabled, x, y, adj[x][y], f);
      }
    }
  }

  /** The edges after `add_edge`: one may be new, and all others are as before. */
  lemma EdgeAfter(adj: Adjacency, a: Token, b: Token, enabled: set<Dex>, sizes: seq<int>, liq: real, x: Token, y: Token)
    ensures var adj' := WithEdge(adj, Named(a), Named(b), enabled, sizes, liq);
            && (HasEdge(adj', x, y) <==> HasEdge(adj, x, y) || (x == a && y == b))
            && (HasEdge(adj, x, y) && !(x == a && y == b) ==> adj'[x][y] == adj[x][y])
  {
  }

  lemma LinkedMore(facts: set<Fact>, f: Fact, x: Token, y: Token)
    ensures Linked(facts + {f}, x, y) <==> Linked(facts, x, y) || (x == f.src && y == f.dst)
  {
    if Linked(facts, x, y) {
      var g :| g in facts && g.src == x && g.dst == y;
      assert g in facts + {f};
    }
    assert f in facts + {f};
  }

  lemma MergedEdge(facts: set<Fact>, enabled: set<Dex>, before: Edge, known: bool, f: Fact, sizes: seq<int>,
                   after: Edge)
    requires known <==> Linked(facts, f.src, f.dst)
    requires if known then IsEdge(facts, enabled, f.src, f.dst, before) else before == Edge({}, [], 0.0)
    requires f.sizes == Positives(sizes)
    requires after == Edge(before.dexes + enabled, Sorted(Elements(before.sizes) + f.sizes),
                           MaxReal(before.liquidityUsd, f.liquidityUsd))
    ensures IsEdge(facts + {f}, enabled, f.src, f.dst, after)
  {
    SizesMore(facts, f);
    if !known {
      assert SizesFor(facts, f.src, f.dst) == {};
      assert Elements(before.sizes) == {};
    }
    AddedLiquidity(facts, f.src, f.dst, before.liquidityUsd, f);
  }

  lemma SizesMore(facts: set<Fact>, f: Fact)
    ensures SizesFor(facts + {f}, f.src, f.dst) == SizesFor(facts, f.src, f.dst) + f.sizes
  {
    forall x ensures x in SizesFor(facts + {f}, f.src, f.dst) <==> x in SizesFor(facts, f.src, f.dst) + f.sizes {
      if x in f.sizes { assert f in facts + {f}; }
      if x in SizesFor(facts, f.src, f.dst) {
        var g :| g in facts && g.src == f.src && g.dst == f.dst && x in g.sizes;
        assert g in facts + {f};
      }
    }
  }

  lemma OtherEdge(facts: set<Fact>, enabled: set<Dex>, x: Token, y: Token, e: Edge, f: Fact)
    requires IsEdge(facts, enabled, x, y, e) && !(f.src == x && f.dst == y)
    ensures IsEdge(facts + {f}, enabled, x, y, e)
  {
    assert SizesFor(facts + {f}, x, y) == SizesFor(facts, x, y);
    if e.liquidityUsd != 0.0 {
      var g :| g in facts && g.src == x && g.dst == y && g.liquidityUsd == e.liquidityUsd;
      assert g in facts + {f};
    }
  }

  lemma AddedLiquidity(facts: set<Fact>, a: Token, b: Token, liq: real, f: Fact)
    requires IsLiquidity(facts, a, b, liq) || (liq == 0.0 && !Linked(facts, a, b))
    requires f.src == a && f.dst == b
    ensures IsLiquidity(facts + {f}, a, b, MaxReal(liq, f.liquidityUsd))
  {
    var facts' := facts + {f};
    assert f in facts';
    if liq != 0.0 {
      var g :| g in facts && g.src == a && g.dst == b && g.liquidityUsd == liq;
      assert g in facts';
    }
  }

  /** This row names the edge from a to b. */
  ghost predicate States(r: Row, bidirectional: bool, a: Token, b: Token)
  {
    || (r.tokenIn == Named(a) && r.tokenOut == Named(b))
    || (bidirectional && r.tokenIn == Named(b) && r.tokenOut == Named(a))
  }

  ghost predicate Stated(rows: seq<Row>, bidirectional: bool, a: Token, b: Token)
  {
    exists r :: r in rows && States(r, bidirectional, a, b)
  }

  /** The graph, read off the rows: an edge for each two tokens that a row names, with the enabled
      venues, all positive sizes of those rows in strictly ascending order, and their largest liquidity,
      or zero. */
  ghost predicate ReadsOff(adj: Adjacency, rows: seq<Row>, enabled: set<Dex>, bidirectional: bool)
  {
    && (forall a :: a in adj ==> exists b :: b in adj[a])
    && (forall a, b :: a in adj && b in adj[a] <==> Stated(rows, bidirectional, a, b))
    && (forall a, b :: a in adj && b in adj[a] ==> EdgeReadsOff(adj[a][b], rows, enabled, bidirectional, a, b))
  }

  ghost predicate EdgeReadsOff(e: Edge, rows: seq<Row>, enabled: set<Dex>, bidirectional: bool, a: Token, b: Token)
  {
    && e.dexes == enabled && (forall i, j :: 0 <= i < j < |e.sizes| ==> e.sizes[i] < e.sizes[j])
    && (forall v :: v in e.sizes <==> exists r :: r in rows && States(r, bidirectional, a, b) && v in r.sizes && 0 < v)
    && 0.0 <= e.liquidityUsd
    && (forall r :: r in rows && States(r, bidirectional, a, b) ==> r.liquidityUsd <= e.liquidityUsd)
    && (e.liquidityUsd == 0.0 ||
         exists r :: r in rows && States(r, bidirectional, a, b) && r.liquidityUsd == e.liquidityUsd)
  }

  lemma FactOfRow(rows: seq<Row>, bidirectional: bool, f: Fact)
    requires f in FactsOf(rows, bidirectional)
    ensures exists r ::
              && r in rows && States(r, bidirectional, f.src, f.dst)
              && f.sizes == Positives(r.sizes) && f.liquidityUsd == r.liquidityUsd
  {
    if r :| r in rows && Usable(r) && f == Forward(r) {
      assert States(r, bidirectional, f.src, f.dst);
    } else {
      var r :| r in rows && Usable(r) && f == Backward(r);
      assert States(r, bidirectional, f.src, f.dst);
    }
  }

  lemma RowHasFact(rows: seq<Row>, bidirectional: bool, r: Row, a: Token, b: Token)
    requires r in rows && States(r, bidirectional, a, b)
    ensures Fact(a, b, Positives(r.sizes), r.liquidityUsd) in FactsOf(rows, bidirectional)
  {
    if r.tokenIn == Named(a) && r.tokenOut == Named(b) {
      assert Forward(r) == Fact(a, b, Positives(r.sizes), r.liquidityUsd);
    } else {
      assert Backward(r) == Fact(a, b, Positives(r.sizes), r.liquidityUsd);
    }
  }

  lemma FactsReadOff(adj: Adjacency, rows: seq<Row>, enabled: set<Dex>, bidirectional: bool)
    requires IsGraphOf(adj, FactsOf(rows, bidirectional), enabled)
    ensures ReadsOff(adj, rows, enabled, bidirectional)
  {
    var facts := FactsOf(rows, bidirectional);
    forall a | a in adj ensures exists b :: b in adj[a] { var b :| HasEdge(adj, a, b); }
    forall a, b ensures a in adj && b in adj[a] <==> Stated(rows, bidirectional, a, b) {
      assert HasEdge(adj, a, b) <==> Linked(facts, a, b);
      if Linked(facts, a, b) {
        var f :| f in facts && f.src == a && f.dst == b;
        FactOfRow(rows, bidirectional, f);
      }
      forall r | r in rows && States(r, bidirectional, a, b) ensures Linked(facts, a, b) {
        RowHasFact(rows, bidirectional, r, a, b);
      }
    }
    forall a, b | a in adj && b in adj[a] ensures EdgeReadsOff(adj[a][b], rows, enabled, bidirectional, a, b) {
      assert HasEdge(adj, a, b);
      EdgeFromFacts(facts, rows, enabled, bidirectional, a, b, adj[a][b]);
    }
  }

  lemma EdgeFromFacts(facts: set<Fact>, rows: seq<Row>, enabled: set<Dex>, bidirectional: bool, a: Token, b: Token,
                      e: Edge)
    requires facts == FactsOf(rows, bidirectional) && IsEdge(facts, enabled, a, b, e)
    ensures EdgeReadsOff(e, rows, enabled, bidirectional, a, b)
  {
    forall v
      ensures v in e.sizes <==> exists r :: r in rows && States(r, bidirectional, a, b) && v in r.sizes && 0 < v
    {
      assert v in e.sizes <==> v in Elements(e.sizes);
      if v in SizesFor(facts, a, b) {
        var f :| f in facts && f.src == a && f.dst == b && v in f.sizes;
        FactOfRow(rows, bidirectional, f);
      }
      forall r | r in rows && States(r, bidirectional, a, b) && v in r.sizes && 0 < v
        ensures v in SizesFor(facts, a, b)
      {
        RowHasFact(rows, bidirectional, r, a, b);
        assert v in Fact(a, b, Positives(r.sizes), r.liquidityUsd).sizes;
      }
    }
    forall r | r in rows && States(r, bidirectional, a, b) ensures r.liquidityUsd <= e.liquidityUsd {
      RowHasFact(rows, bidirectional, r, a, b);
    }
    if e.liquidityUsd != 0.0 {
      var f :| f in facts && f.src == a && f.dst == b && f.liquidityUsd == e.liquidityUsd;
      FactOfRow(rows, bidirectional, f);
    }
  }

  /** `build_token_graph`: each edge carries the enabled venues, the ascending set of all positive
      sizes any row gives it, and the largest liquidity; blank rows contribute nothing. */
  method BuildTokenGraph(universe: seq<Row>, enabled: set<Dex>, bidirectional: bool) returns (graph: TokenGraph)
    ensures fresh(graph) && IsGraphOf(graph.adjacency, FactsOf(universe, bidirectional), enabled)
    ensures ReadsOff(graph.adjacency, universe, enabled, bidirectional)
  {
    graph := new TokenGraph();
    var i := 0;
    while i < |universe|
      invariant 0 <= i <= |universe| && fresh(graph)
      invariant graph.adjacency == AfterRows(universe[..i], enabled, bidirectional)
    {
      var row := universe[i];
      if Usable(row) {
        graph.AddEdge(row.tokenIn, row.tokenOut, enabled, row.sizes, row.liquidityUsd);
        if bidirectional {
          graph.AddEdge(row.tokenOut, row.tokenIn, enabled, row.sizes, row.liquidityUsd);
        }
      }
      AfterOneMore(universe, i, enabled, bidirectional);
      i := i + 1;
    }
    assert universe[..i] == universe;
    AfterRowsIsGraph(universe, enabled, bidirectional);
    FactsReadOff(graph.adjacency, universe, enabled, bidirectional);
  }

  function WithRow(adj: Adjacency, row: Row, enabled: set<Dex>, bidirectional: bool): Adjacency
  {
    if !Usable(row) then adj else
      var there := WithEdge(adj, row.tokenIn, row.tokenOut, enabled, row.sizes, row.liquidityUsd);
      if bidirectional then WithEdge(there, row.tokenOut, row.tokenIn, enabled, row.sizes, row.liquidityUsd) else there
  }

  function AfterRows(rows: seq<Row>, enabled: set<Dex>, bidirectional: bool): Adjacency
  {
    if rows == [] then map[] else
      var n := |rows| - 1;
      WithRow(AfterRows(rows[..n], enabled, bidirectional), rows[n], enabled, bidirectional)
  }

  lemma AfterOneMore(rows: seq<Row>, i: nat, enabled: set<Dex>, bidirectional: bool)
    requires i < |rows|
    ensures AfterRows(rows[..i + 1], enabled, bidirectional)
            == WithRow(AfterRows(rows[..i], enabled, bidirectional), rows[i], enabled, bidirectional)
  {
    assert rows[..i + 1][..i] == rows[..i] && rows[..i + 1][i] == rows[i];
  }

  lemma {:induction false} AfterRowsIsGraph(rows: seq<Row>, enabled: set<Dex>, bidirectional: bool)
    ensures IsGraphOf(AfterRows(rows, enabled, bidirectional), FactsOf(rows, bidirectional), enabled)
  {
    if rows == [] {
      assert FactsOf(rows, bidirectional) == {};
    } else {
      var n := |rows| - 1;
      AfterRowsIsGraph(rows[..n], enabled, bidirectional);
      AddRow(AfterRows(rows[..n], enabled, bidirectional), rows, n, enabled, bidirectional);
      assert rows[..n + 1] == rows;
    }
  }

  lemma AddRow(adj: Adjacency, rows: seq<Row>, i: nat, enabled: set<Dex>, bidirectional: bool)
    requires i < |rows| && IsGraphOf(adj, FactsOf(rows[..i], bidirectional), enabled)
    ensures IsGraphOf(WithRow(adj, rows[i], enabled, bidirectional), FactsOf(rows[..i + 1], bidirectional), enabled)
  {
    FactsSnoc(rows, i, bidirectional);
    var row, facts := rows[i], FactsOf(rows[..i], bidirectional);
    if Usable(row) {
      var a, b := row.tokenIn.token, row.tokenOut.token;
      AddFact(adj, facts, enabled, a, b, row.sizes, row.liquidityUsd);
      if bidirectional {
        var there := WithEdge(adj, row.tokenIn, row.tokenOut, enabled, row.sizes, row.liquidityUsd);
        AddFact(there, facts + {Forward(row)}, enabled, b, a, row.sizes, row.liquidityUsd);
      } else {
        assert facts + {Forward(row)} + {} == facts + {Forward(row)};
      }
    }
  }

  lemma FactsSnoc(rows: seq<Row>, i: nat, bidirectional: bool)
    requires i < |rows|
    ensures var facts, more := FactsOf(rows[..i], bidirectional), FactsOf(rows[..i + 1], bidirectional);
            more == if !Usable(rows[i]) then facts
                    else facts + {Forward(rows[i])} + (if bidirectional then {Backward(rows[i])} else {})
  {
    assert rows[..i + 1] == rows[..i] + [rows[i]];
  }

  lemma EdgeUnique(facts: set<Fact>, enabled: set<Dex>, a: Token, b: Token, e: Edge, f: Edge)
    requires IsEdge(facts, enabled, a, b, e) && IsEdge(facts, enabled, a, b, f)
    ensures e == f
  {
    AscendingUnique(e.sizes, f.sizes);
  }

  lemma GraphUnique(g: Adjacency, h: Adjacency, facts: set<Fact>, enabled: set<Dex>)
    requires IsGraphOf(g, facts, enabled) && IsGraphOf(h, facts, enabled)
    ensures g == h
  {
    forall a ensures a in g <==> a in h {
      if a in g { var b :| HasEdge(g, a, b); assert HasEdge(h, a, b); }
      if a in h { var b :| HasEdge(h, a, b); assert HasEdge(g, a, b); }
    }
    forall a | a in g ensures g[a] == h[a] { SameNeighbors(g, h, facts, enabled, a); }
  }

  lemma SameNeighbors(g: Adjacency, h: Adjacency, facts: set<Fact>, enabled: set<Dex>, a: Token)
    requires IsGraphOf(g, facts, enabled) && IsGraphOf(h, facts, enabled) && a in g && a in h
    ensures g[a] == h[a]
  {
    forall b ensures b in g[a] <==> b in h[a] {
      assert HasEdge(g, a, b) <==> HasEdge(h, a, b);
    }
    forall b | b in g[a] ensures g[a][b] == h[a][b] {
      assert HasEdge(g, a, b) && HasEdge(h, a, b);
      EdgeUnique(facts, enabled, a, b, g[a][b], h[a][b]);
    }
  }

  /** Row order and repetition do not matter: universes with the same rows give the same graph. */
  lemma RowOrderIrrelevant(g: Adjacency, h: Adjacency, rows: seq<Row>, rows': seq<Row>, bidirectional: bool,
                           enabled: set<Dex>)
    requires forall r :: r in rows <==> r in rows'
    requires IsGraphOf(g, FactsOf(rows, bidirectional), enabled) && IsGraphOf(h, FactsOf(rows', bidirectional), enabled)
    ensures g == h
  {
    assert FactsOf(rows, bidirectional) == FactsOf(rows', bidirectional);
    GraphUnique(g, h, FactsOf(rows, bidirectional), enabled);
  }

  ghost predicate Symmetric(adj: Adjacency)
  {
    forall a, b :: HasEdge(adj, a, b) ==> HasEdge(adj, b, a) && adj[a][b] == adj[b][a]
  }

  /** A bidirectional graph holds each edge in both directions with equal contents. */
  lemma BidirectionalIsSymmetric(adj: Adjacency, rows: seq<Row>, enabled: set<Dex>)
    requires IsGraphOf(adj, FactsOf(rows, true), enabled)
    ensures Symmetric(adj)
  {
    var facts := FactsOf(rows, true);
    forall f | f in facts ensures Fact(f.dst, f.src, f.sizes, f.liquidityUsd) in facts {
      var r :| r in rows && Usable(r) && (f == Forward(r) || f == Backward(r));
      assert Forward(r) in facts && Backward(r) in facts;
    }
    forall a, b | HasEdge(adj, a, b) ensures HasEdge(adj, b, a) && adj[a][b] == adj[b][a] {
      var f :| f in facts && f.src == a && f.dst == b;
      assert Fact(b, a, f.sizes, f.liquidityUsd) in facts;
      assert Linked(facts, b, a);
      MirrorEdge(facts, enabled, a, b, adj[a][b]);
      EdgeUnique(facts, enabled, b, a, adj[a][b], adj[b][a]);
    }
  }

  lemma MirrorEdge(facts: set<Fact>, enabled: set<Dex>, a: Token, b: Token, e: Edge)
    requires forall f :: f in facts ==> Fact(f.dst, f.src, f.sizes, f.liquidityUsd) in facts
    requires IsEdge(facts, enabled, a, b, e)
    ensures IsEdge(facts, enabled, b, a, e)
  {
    forall x ensures x in SizesFor(facts, a, b) <==> x in SizesFor(facts, b, a) {
      if x in SizesFor(facts, a, b) {
        var f :| f in facts && f.src == a && f.dst == b && x in f.sizes;
        assert Fact(b, a, f.sizes, f.liquidityUsd) in facts;
      }
      if x in SizesFor(facts, b, a) {
        var f :| f in facts && f.src == b && f.dst == a && x in f.sizes;
        assert Fact(a, b, f.sizes, f.liquidityUsd) in facts;
      }
    }
    if e.liquidityUsd != 0.0 {
      var f :| f in facts && f.src == a && f.dst == b && f.liquidityUsd == e.liquidityUsd;
      assert Fact(b, a, f.sizes, f.liquidityUsd) in facts;
    }
    forall f | f in facts && f.src == b && f.dst == a ensures f.liquidityUsd <= e.liquidityUsd {
      assert Fact(a, b, f.sizes, f.liquidityUsd) in facts;
    }
  }
}
