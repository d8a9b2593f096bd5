/** Python's `sorted(set)` on integers. */
module SortedSets {

  ghost predicate Ascending(s: seq<int>)
  {
    forall i, j :: 0 <= i < j < |s| ==> s[i] < s[j]
  }

  function Elements(s: seq<int>): set<int>
  {
    set x | x in s
  }

  lemma EmptyIfNone(s: set<int>)
    requires forall x :: x !in s
    ensures s == {}
  {
    assert forall x :: x in s <==> x in {};
  }

  lemma Inhabited(s: set<int>)
    requires s != {}
    ensures exists x :: x in s
  {
    if forall x :: x !in s { EmptyIfNone(s); }
  }

  predicate IsLeast(s: set<int>, x: int)
  {
    x in s && forall y :: y in s ==> x <= y
  }

  lemma {:induction false} HasLeast(s: set<int>)
    requires s != {}
    ensures exists x :: IsLeast(s, x)
    decreases |s|
  {
    Inhabited(s);
    var x :| x in s;
    var rest := s - {x};
    if rest == {} {
      assert s == {x};
      assert IsLeast(s, x);
    } else {
      HasLeast(rest);
      var z :| IsLeast(rest, z);
      LeastOfTwo(s, x, z);
    }
  }

  lemma LeastOfTwo(s: set<int>, x: int, z: int)
    requires x in s && IsLeast(s - {x}, z)
    ensures IsLeast(s, if x < z then x else z)
  {
    forall y | y in s ensures (if x < z then x else z) <= y {
      if y != x { assert y in s - {x}; }
    }
  }

  function Sorted(s: set<int>): (r: seq<int>)
    ensures Ascending(r) && |r| == |s| && Elements(r) == s
    decreases |s|
  {
    if s == {} then [] else
      HasLeast(s);
      var x :| x in s && IsLeast(s, x);
      var rest := Sorted(s - {x});
      LeastFirst(s, x, rest);
      [x] + rest
  }

  lemma LeastFirst(s: set<int>, x: int, rest: seq<int>)
    requires IsLeast(s, x) && Ascending(rest) && Elements(rest) == s - {x}
    ensures Ascending([x] + rest) && Elements([x] + rest) == s
  {
    var r := [x] + rest;
    forall k | 0 <= k < |rest| ensures x < rest[k] { assert rest[k] in Elements(rest); }
    forall i, j | 0 <= i < j < |r| ensures r[i] < r[j] {
      assert r[j] == rest[j - 1] && (0 < i ==> r[i] == rest[i - 1]);
    }
    forall y ensures y in Elements(r) <==> y in s {
      assert y in Elements(r) <==> y == x || y in Elements(rest);
    }
  }

  /** An ascending list is determined by its elements. */
  lemma {:induction false} AscendingUnique(s: seq<int>, t: seq<int>)
    requires Ascending(s) && Ascending(t) && Elements(s) == Elements(t)
    ensures s == t
    decreases |s|
  {
    assert forall k :: 0 <= k < |s| ==> s[k] in Elements(t);
    assert forall k :: 0 <= k < |t| ==> t[k] in Elements(s);
    if s != [] {
      assert s[0] in Elements(t) && t != [] && t[0] in Elements(s);
      forall x ensures x in Elements(s[1..]) <==> x in Elements(t[1..]) {
        assert x in Elements(s[1..]) <==> x in Elements(s) && x != s[0];
        assert x in Elements(t[1..]) <==> x in Elements(t) && x != t[0];
      }
      AscendingUnique(s[1..], t[1..]);
    }
  }
}
