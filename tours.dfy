/**
  Tours: an ant's tour is a sequence of city indices, read as a closed cycle
  (the last city connects back to the first). This module says what it
  means for a tour to visit every city of an n-city instance exactly once,
  and proves the counting facts the tour builder relies on.
 */
module Tours {

  /** The set of cities a tour has visited (the `visited` Set of buildAntTour). */
  function Elems(t: seq<nat>): set<nat>
  {
    set c | c in t
  }

  /** The city indices `0 .. n-1`. */
  function Range(n: nat): (r: set<nat>)
    ensures forall c :: c in r <==> 0 <= c < n
  {
    if n == 0 then {} else Range(n - 1) + {n - 1}
  }

  predicate InRange(t: seq<nat>, n: nat)
  {
    forall k | 0 <= k < |t| :: t[k] < n
  }

  predicate Distinct(t: seq<nat>)
  {
    forall a, b | 0 <= a < b < |t| :: t[a] != t[b]
  }

  /** `t` visits each of the cities `0 .. n-1` exactly once. */
  predicate IsPermutation(t: seq<nat>, n: nat)
  {
    |t| == n && InRange(t, n) && Distinct(t)
  }

  /** Position of the city that follows position `k` on the closed tour. */
  function Succ(t: seq<nat>, k: nat): (m: nat)
    requires k < |t|
    ensures m < |t|
  {
    if k + 1 < |t| then k + 1 else 0
  }

  lemma {:induction false} RangeCard(n: nat)
    ensures |Range(n)| == n
  {
    if n > 0 {
      RangeCard(n - 1);
    }
  }

  lemma {:induction false} SubsetCard(a: set<nat>, b: set<nat>)
    requires a <= b
    ensures |a| <= |b|
    decreases a
  {
    if a != {} {
      var x :| x in a;
      SubsetCard(a - {x}, b - {x});
    }
  }

  /** A tour never names more cities than it has positions, and exactly
      as many when it has no repeats. */
  lemma {:induction false} ElemsCard(t: seq<nat>)
    ensures |Elems(t)| <= |t|
    ensures Distinct(t) ==> |Elems(t)| == |t|
  {
    if |t| > 0 {
      var s := t[..|t| - 1];
      ElemsCard(s);
      assert Elems(t) == Elems(s) + {t[|t| - 1]};
      assert Distinct(t) ==> Distinct(s);
      assert Distinct(t) ==> t[|t| - 1] !in Elems(s);
    }
  }

  /** A tour with a repeated city names fewer cities than it has positions. */
  lemma RepeatShrinksElems(t: seq<nat>)
    requires !Distinct(t)
    ensures |Elems(t)| < |t|
  {
    var a, b :| 0 <= a < b < |t| && t[a] == t[b];
    var s := t[..b] + t[b + 1..];
    assert Elems(t) == Elems(s) by {
      forall c | c in Elems(t) ensures c in Elems(s) {
        var k :| 0 <= k < |t| && t[k] == c;
        if k < b { assert s[k] == c; }
        else if k == b { assert s[a] == c; }
        else { assert s[k - 1] == c; }
      }
    }
    ElemsCard(s);
  }

  /** While a tour over n cities is shorter than n, some city is still
      unvisited: the loop of buildAntTour always has a candidate. */
  lemma UnvisitedExists(t: seq<nat>, n: nat)
    requires |t| < n
    ensures exists c :: 0 <= c < n && c !in Elems(t)
  {
    ElemsCard(t);
    RangeCard(n);
    if forall c :: 0 <= c < n ==> c in Elems(t) {
      assert Range(n) <= Elems(t);
      SubsetCard(Range(n), Elems(t));
      assert false;
    }
  }

  /** A tour is a permutation of `0 .. n-1` exactly when it has n
      positions and visits exactly the cities `0 .. n-1`. */
  lemma PermutationIffCovers(t: seq<nat>, n: nat)
    ensures IsPermutation(t, n) <==> |t| == n && Elems(t) == Range(n)
  {
    RangeCard(n);
    ElemsCard(t);
    if IsPermutation(t, n) {
      assert Elems(t) <= Range(n);
      if c :| c in Range(n) && c !in Elems(t) {
        SubsetCard(Elems(t), Range(n) - {c});
        assert false;
      }
    }
    if |t| == n && Elems(t) == Range(n) {
      assert forall k | 0 <= k < |t| :: t[k] in Elems(t);
      if !Distinct(t) {
        RepeatShrinksElems(t);
        assert false;
      }
    }
  }
}
