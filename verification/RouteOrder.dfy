/** The order in which PrivateOrderflowRouter in bot/exec/orderflow.py tries its relays. */
module RouteOrder {

  datatype Relay = FlashbotsProtect | CowProtocol | OtherRelay(id: nat)

  /** What the routing rules evaluated to; a rule that raised counts as false. */
  datatype Rules = Rules(preferFlashbots: bool, preferCow: bool, avoid: seq<(Relay, bool)>, offchainSolver: bool)

  ghost predicate Distinct(s: seq<Relay>)
  {
    forall i: nat, j: nat :: i < j < |s| ==> Differ(s, i, j)
  }

  ghost predicate Differ(s: seq<Relay>, i: nat, j: nat)
    requires i < |s| && j < |s|
  {
    s[i] != s[j]
  }

  function Without(s: seq<Relay>, name: Relay): (r: seq<Relay>)
  {
    if s == [] then [] else (if s[0] == name then [] else [s[0]]) + Without(s[1..], name)
  }

  /** `_promote` */
  function Promote(s: seq<Relay>, name: Relay): (r: seq<Relay>)
  {
    if name in s then [name] + Without(s, name) else s
  }

  /** `seq.remove(name); seq.append(name)` for a name that occurs once. */
  function Demote(s: seq<Relay>, name: Relay): (r: seq<Relay>)
  {
    Without(s, name) + [name]
  }

  /** For two orders without duplicates: the same relays, each once. */
  ghost predicate Reorders(s: seq<Relay>, t: seq<Relay>)
  {
    |s| == |t| && forall x :: x in s <==> x in t
  }

  /** x has its turn before y. */
  ghost predicate Precedes(s: seq<Relay>, x: Relay, y: Relay)
  {
    exists i: nat, j: nat :: Places(s, i, j, x, y)
  }

  ghost predicate Places(s: seq<Relay>, i: nat, j: nat, x: Relay, y: Relay)
  {
    i < j < |s| && s[i] == x && s[j] == y
  }

  // Which relay is wanted before which

  /** The last rule that asks to avoid the relay, or -1. */
  function LastRule(avoid: seq<(Relay, bool)>, x: Relay): (i: int)
    ensures -1 <= i < |avoid|
  {
    if avoid == [] then -1
    else if avoid[|avoid| - 1] == (x, true) then |avoid| - 1
    else LastRule(avoid[..|avoid| - 1], x)
  }

  /** CoW for an offchain solver, preferred CoW, preferred flashbots, relays no rule speaks of, and
      then the avoided ones by the last rule against them. */
  function Rank(rules: Rules, x: Relay): (r: nat)
  {
    if x == CowProtocol && rules.offchainSolver then 0
    else if 0 <= LastRule(rules.avoid, x) then 4 + LastRule(rules.avoid, x)
    else if x == CowProtocol && rules.preferCow then 1
    else if x == FlashbotsProtect && rules.preferFlashbots then 2
    else 3
  }

  /** `i` is the last rule against the relay that holds. */
  ghost predicate LastAgainst(avoid: seq<(Relay, bool)>, x: Relay, i: nat)
  {
    i < |avoid| && avoid[i] == (x, true) && forall k :: i < k < |avoid| ==> avoid[k] != (x, true)
  }

  lemma {:induction false} LastRuleMeans(avoid: seq<(Relay, bool)>, x: Relay)
    ensures LastRule(avoid, x) == -1 <==> forall k :: 0 <= k < |avoid| ==> avoid[k] != (x, true)
    ensures 0 <= LastRule(avoid, x) ==> LastAgainst(avoid, x, LastRule(avoid, x))
  {
    if avoid != [] { LastRuleMeans(avoid[..|avoid| - 1], x); }
  }

  /** The ranks in plain terms: an offchain solver puts CoW first whatever else holds; then come relays that
      no rule avoids, preferred ones in front, and then the avoided ones by the last rule against them. */
  lemma RankMeans(rules: Rules, x: Relay)
    ensures x == CowProtocol && rules.offchainSolver ==> Rank(rules, x) == 0
    ensures !(x == CowProtocol && rules.offchainSolver) ==>
              && (forall i: nat :: LastAgainst(rules.avoid, x, i) ==> Rank(rules, x) == 4 + i)
              && ((forall k :: 0 <= k < |rules.avoid| ==> rules.avoid[k] != (x, true)) ==>
                    Rank(rules, x) == if x == CowProtocol && rules.preferCow then 1
                                      else if x == FlashbotsProtect && rules.preferFlashbots then 2 else 3)
  {
    LastRuleMeans(rules.avoid, x);
    forall i: nat | LastAgainst(rules.avoid, x, i) ensures LastRule(rules.avoid, x) == i {}
  }

  /** The configured order, stably sorted by rank. */
  ghost predicate Sorted(order: seq<Relay>, rules: Rules, s: seq<Relay>)
  {
    forall x, y :: SortedAt(order, rules, s, x, y)
  }

  ghost predicate SortedAt(order: seq<Relay>, rules: Rules, s: seq<Relay>, x: Relay, y: Relay)
  {
    x in order && y in order && Wanted(order, rules, x, y) ==> Precedes(s, x, y)
  }

  ghost predicate Wanted(order: seq<Relay>, rules: Rules, x: Relay, y: Relay)
  {
    Rank(rules, x) < Rank(rules, y) || (Rank(rules, x) == Rank(rules, y) && Precedes(order, x, y))
  }

  // Moving one relay

  lemma DistinctTail(s: seq<Relay>)
    requires Distinct(s) && s != []
    ensures Distinct(s[1..]) && s[0] !in s[1..] && s == [s[0]] + s[1..]
  {
    forall i: nat, j: nat | i < j < |s[1..]| ensures Differ(s[1..], i, j) { assert Differ(s, i + 1, j + 1); }
    forall j: nat | j < |s[1..]| ensures s[1..][j] != s[0] { assert Differ(s, 0, j + 1); }
  }

  lemma DistinctFirst(a: Relay, s: seq<Relay>)
    requires Distinct(s) && a !in s
    ensures Distinct([a] + s)
  {
    forall i: nat, j: nat | i < j < |[a] + s| ensures Differ([a] + s, i, j) {
      if 0 < i { assert Differ(s, i - 1, j - 1); }
    }
  }

  lemma DistinctLast(s: seq<Relay>, a: Relay)
    requires Distinct(s) && a !in s
    ensures Distinct(s + [a])
  {
    forall i: nat, j: nat | i < j < |s + [a]| ensures Differ(s + [a], i, j) {
      if j < |s| { assert Differ(s, i, j); }
    }
  }

  lemma PrecedesFirst(a: Relay, s: seq<Relay>, x: Relay, y: Relay)
    ensures Precedes([a] + s, x, y) <==> (x == a && y in s) || Precedes(s, x, y)
  {
    var r := [a] + s;
    if Precedes(r, x, y) {
      var i: nat, j: nat :| Places(r, i, j, x, y);
      assert s[j - 1] == y;
      if 0 < i { assert Places(s, i - 1, j - 1, x, y); }
    }
    if x == a && y in s {
      var j: nat :| j < |s| && s[j] == y;
      assert Places(r, 0, j + 1, x, y);
    }
    if Precedes(s, x, y) {
      var i: nat, j: nat :| Places(s, i, j, x, y);
      assert Places(r, i + 1, j + 1, x, y);
    }
  }

  lemma PrecedesLast(s: seq<Relay>, a: Relay, x: Relay, y: Relay)
    ensures Precedes(s + [a], x, y) <==> (y == a && x in s) || Precedes(s, x, y)
  {
    var r := s + [a];
    if Precedes(r, x, y) {
      var i: nat, j: nat :| Places(r, i, j, x, y);
      assert s[i] == x;
      if j < |s| { assert Places(s, i, j, x, y); }
    }
    if y == a && x in s {
      var i: nat :| i < |s| && s[i] == x;
      assert Places(r, i, |s|, x, y);
    }
    if Precedes(s, x, y) {
      var i: nat, j: nat :| Places(s, i, j, x, y);
      assert Places(r, i, j, x, y);
    }
  }

  lemma PrecedesMembers(s: seq<Relay>, x: Relay, y: Relay)
    ensures Precedes(s, x, y) ==> x in s && y in s
  {
    if Precedes(s, x, y) {
      var i: nat, j: nat :| Places(s, i, j, x, y);
      assert s[i] == x && s[j] == y;
    }
  }

  /** Taking a relay out leaves the others, once each and in the same order. */
  lemma {:induction false} WithoutSpec(s: seq<Relay>, name: Relay)
    requires Distinct(s)
    ensures var r := Without(s, name);
            && Distinct(r) && |r| == |s| - (if name in s then 1 else 0)
            && forall x :: x in r <==> x in s && x != name
  {
    if s != [] {
      var t := s[1..];
      DistinctTail(s);
      WithoutSpec(t, name);
      if s[0] == name {
        assert Without(s, name) == Without(t, name);
      } else {
        DistinctFirst(s[0], Without(t, name));
      }
    }
  }

  lemma {:induction false} WithoutKeepsOrder(s: seq<Relay>, name: Relay, x: Relay, y: Relay)
    requires Distinct(s)
    ensures Precedes(Without(s, name), x, y) <==> Precedes(s, x, y) && x != name && y != name
  {
    if s == [] {
      PrecedesMembers(s, x, y);
    } else {
      var t := s[1..];
      DistinctTail(s);
      WithoutKeepsOrder(t, name, x, y);
      WithoutSpec(t, name);
      PrecedesFirst(s[0], t, x, y);
      if s[0] == name {
        PrecedesMembers(t, x, y);
        assert Without(s, name) == Without(t, name);
      } else {
        PrecedesFirst(s[0], Without(t, name), x, y);
      }
    }
  }

  lemma PromoteSpec(s: seq<Relay>, name: Relay)
    requires Distinct(s)
    ensures Reorders(s, Promote(s, name)) && Distinct(Promote(s, name))
    ensures name in s ==> Promote(s, name)[0] == name
  {
    WithoutSpec(s, name);
    if name in s {
      DistinctFirst(name, Without(s, name));
      assert forall x :: x in [name] + Without(s, name) <==> x == name || x in Without(s, name);
    }
  }

  lemma DemoteSpec(s: seq<Relay>, name: Relay)
    requires Distinct(s) && name in s
    ensures Reorders(s, Demote(s, name)) && Distinct(Demote(s, name))
  {
    WithoutSpec(s, name);
    DistinctLast(Without(s, name), name);
    assert forall x :: x in Without(s, name) + [name] <==> x == name || x in Without(s, name);
  }

  /** From the rules `r` to `r'` only this relay's rank changes. */
  ghost predicate OnlyRankOf(order: seq<Relay>, r: Rules, r': Rules, name: Relay)
  {
    forall x :: x in order && x != name ==> Rank(r', x) == Rank(r, x)
  }

  /** A relay whose rank becomes the least is to be promoted. */
  lemma PromoteSorts(order: seq<Relay>, r: Rules, r': Rules, s: seq<Relay>, name: Relay)
    requires Distinct(s) && Reorders(order, s) && Sorted(order, r, s) && OnlyRankOf(order, r, r', name)
    requires forall x :: x in order && x != name ==> Rank(r', name) < Rank(r', x)
    requires Distinct(order)
    ensures Sorted(order, r', Promote(s, name))
  {
    forall x, y ensures SortedAt(order, r', Promote(s, name), x, y) {
      assert SortedAt(order, r, s, x, y);
      PrecedesIrreflexive(order, name);
      if name in s {
        WithoutSpec(s, name);
        WithoutKeepsOrder(s, name, x, y);
        PrecedesFirst(name, Without(s, name), x, y);
      }
    }
  }

  /** A relay whose rank becomes the greatest is to be demoted. */
  lemma DemoteSorts(order: seq<Relay>, r: Rules, r': Rules, s: seq<Relay>, name: Relay)
    requires Distinct(s) && Reorders(order, s) && Sorted(order, r, s) && OnlyRankOf(order, r, r', name)
    requires forall x :: x in order && x != name ==> Rank(r', x) < Rank(r', name)
    requires Distinct(order)
    ensures Sorted(order, r', Demote(s, name))
  {
    forall x, y ensures SortedAt(order, r', Demote(s, name), x, y) {
      assert SortedAt(order, r, s, x, y);
      PrecedesIrreflexive(order, name);
      WithoutSpec(s, name);
      WithoutKeepsOrder(s, name, x, y);
      PrecedesLast(Without(s, name), name, x, y);
    }
  }

  lemma PrecedesIrreflexive(s: seq<Relay>, x: Relay)
    requires Distinct(s)
    ensures !Precedes(s, x, x)
  {
    if Precedes(s, x, x) {
      var i: nat, j: nat :| Places(s, i, j, x, x);
      SameIndex(s, i, j);
    }
  }

  lemma SameIndex(s: seq<Relay>, i: nat, j: nat)
    requires Distinct(s) && i < |s| && j < |s| && s[i] == s[j]
    ensures i == j
  {
    assert i < j ==> Differ(s, i, j);
    assert j < i ==> Differ(s, j, i);
  }

  lemma LastRuleSnoc(avoid: seq<(Relay, bool)>, rule: (Relay, bool), x: Relay)
    ensures LastRule(avoid + [rule], x) == if rule == (x, true) then |avoid| else LastRule(avoid, x)
  {
    assert (avoid + [rule])[..|avoid|] == avoid;
  }

  /** One step of the loop over the avoid rules. */
  lemma AvoidOne(order: seq<Relay>, r: Rules, rule: (Relay, bool), s: seq<Relay>)
    requires Distinct(order) && Distinct(s) && Reorders(order, s) && Sorted(order, r, s) && !r.offchainSolver
    ensures Sorted(order, r.(avoid := r.avoid + [rule]), if rule.1 && rule.0 in s then Demote(s, rule.0) else s)
  {
    var r' := r.(avoid := r.avoid + [rule]);
    forall x ensures LastRule(r'.avoid, x) == if rule == (x, true) then |r.avoid| else LastRule(r.avoid, x) {
      LastRuleSnoc(r.avoid, rule, x);
    }
    if rule.1 && rule.0 in s {
      DemoteSorts(order, r, r', s, rule.0);
    } else {
      forall x, y ensures SortedAt(order, r', s, x, y) { assert SortedAt(order, r, s, x, y); }
    }
  }

  /** `_compute_route_sequence`: for any rule outcomes, the configured order stably sorted by rank;
      every relay keeps exactly one turn. */
  method ComputeRouteSequence(order: seq<Relay>, rules: Rules) returns (s: seq<Relay>)
    requires Distinct(order)
    ensures Reorders(order, s) && Distinct(s) && Sorted(order, rules, s)
    ensures rules.offchainSolver && CowProtocol in order ==> s[0] == CowProtocol
  {
    s := order;
    ghost var r := Rules(false, false, [], false);
    if rules.preferFlashbots {
      PromoteSpec(s, FlashbotsProtect);
      PromoteSorts(order, r, r.(preferFlashbots := true), s, FlashbotsProtect);
      s := Promote(s, FlashbotsProtect);
      r := r.(preferFlashbots := true);
    }
    if rules.preferCow {
      PromoteSpec(s, CowProtocol);
      PromoteSorts(order, r, r.(preferCow := true), s, CowProtocol);
      s := Promote(s, CowProtocol);
      r := r.(preferCow := true);
    }
    var i := 0;
    while i < |rules.avoid|
      invariant 0 <= i <= |rules.avoid| && r == Rules(rules.preferFlashbots, rules.preferCow, rules.avoid[..i], false)
      invariant Reorders(order, s) && Distinct(s) && Sorted(order, r, s)
    {
      AvoidOne(order, r, rules.avoid[i], s);
      assert rules.avoid[..i + 1] == rules.avoid[..i] + [rules.avoid[i]];
      r := r.(avoid := rules.avoid[..i + 1]);
      var (name, holds) := rules.avoid[i];
      if holds && name in s {
        DemoteSpec(s, name);
        s := Demote(s, name);
      }
      i := i + 1;
    }
    assert rules.avoid[..i] == rules.avoid;
    if rules.offchainSolver {
      PromoteSpec(s, CowProtocol);
      PromoteSorts(order, r, rules, s, CowProtocol);
      s := Promote(s, CowProtocol);
    }
  }

  /** There is only one such sequence. */
  lemma RouteUnique(order: seq<Relay>, rules: Rules, s: seq<Relay>, t: seq<Relay>)
    requires Distinct(order) && Reorders(order, s) && Reorders(order, t) && Distinct(s) && Distinct(t)
    requires Sorted(order, rules, s) && Sorted(order, rules, t)
    ensures s == t
  {
    forall x, y ensures SamePlaces(s, t, x, y) {
      if Precedes(s, x, y) { RouteForces(order, rules, s, t, x, y); }
      if Precedes(t, x, y) { RouteForces(order, rules, t, s, x, y); }
    }
    SameOrder(s, t);
  }

  ghost predicate SamePlaces(s: seq<Relay>, t: seq<Relay>, x: Relay, y: Relay)
  {
    Precedes(s, x, y) <==> Precedes(t, x, y)
  }

  /** Two orders of the same relays are equal if they agree on every pair. */
  lemma {:induction false} SameOrder(s: seq<Relay>, t: seq<Relay>)
    requires Distinct(s) && Distinct(t) && Reorders(s, t) && forall x, y :: SamePlaces(s, t, x, y)
    ensures s == t
  {
    if s != [] {
      var a, s', t' := s[0], s[1..], t[1..];
      DistinctTail(s);
      DistinctTail(t);
      SameFirst(s, t);
      forall x ensures x in s' <==> x in t' {
        assert x in s <==> x == a || x in s';
        assert x in t <==> x == t[0] || x in t';
      }
      forall x, y ensures SamePlaces(s', t', x, y) {
        assert SamePlaces(s, t, x, y);
        PrecedesFirst(a, s', x, y);
        PrecedesFirst(a, t', x, y);
        PrecedesMembers(s', x, y);
        PrecedesMembers(t', x, y);
      }
      SameOrder(s', t');
    }
  }

  lemma SameFirst(s: seq<Relay>, t: seq<Relay>)
    requires Distinct(s) && Distinct(t) && Reorders(s, t) && s != [] && forall x, y :: SamePlaces(s, t, x, y)
    ensures s[0] == t[0]
  {
    assert t[0] in t && SamePlaces(s, t, s[0], t[0]);
    var i: nat :| i < |s| && s[i] == t[0];
    if 0 < i {
      assert Places(s, 0, i, s[0], t[0]);
      var k: nat, l: nat :| Places(t, k, l, s[0], t[0]);
      SameIndex(t, l, 0);
    }
  }

  lemma RouteForces(order: seq<Relay>, rules: Rules, s: seq<Relay>, t: seq<Relay>, x: Relay, y: Relay)
    requires Distinct(order) && Reorders(order, s) && Distinct(s)
    requires Sorted(order, rules, s) && Sorted(order, rules, t) && Precedes(s, x, y)
    ensures Precedes(t, x, y)
  {
    PrecedesMembers(s, x, y);
    PrecedesIrreflexive(s, x);
    assert SortedAt(order, rules, s, y, x) && SortedAt(order, rules, t, x, y);
    Asymmetric(s, x, y);
    Connected(order, x, y);
  }

  lemma Asymmetric(s: seq<Relay>, x: Relay, y: Relay)
    requires Distinct(s) && Precedes(s, x, y)
    ensures !Precedes(s, y, x)
  {
    if Precedes(s, y, x) {
      var i: nat, j: nat :| Places(s, i, j, x, y);
      var k: nat, l: nat :| Places(s, k, l, y, x);
      SameIndex(s, i, l);
      SameIndex(s, j, k);
    }
  }

  lemma Connected(s: seq<Relay>, x: Relay, y: Relay)
    requires x in s && y in s && x != y
    ensures Precedes(s, x, y) || Precedes(s, y, x)
  {
    var i: nat :| i < |s| && s[i] == x;
    var j: nat :| j < |s| && s[j] == y;
    if i < j { assert Places(s, i, j, x, y); } else { assert Places(s, j, i, y, x); }
  }
}
