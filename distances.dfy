/**
  Square matrices indexed by city, stored as two-dimensional arrays: the
  distance table (integers, since every metric rounds) and the pheromone
  field (exact reals).
 */
module Matrices {

  /** `m` is an n-by-n table. */
  predicate IsSquare<T>(m: array2<T>, n: nat)
  {
    m.Length0 == n && m.Length1 == n
  }

  ghost predicate Symmetric<T>(m: array2<T>)
    reads m
    requires m.Length0 == m.Length1
  {
    forall i, j | 0 <= i < m.Length0 && 0 <= j < m.Length0 :: m[i, j] == m[j, i]
  }

  ghost predicate ZeroDiagonal(m: array2<int>)
    reads m
    requires m.Length0 == m.Length1
  {
    forall i | 0 <= i < m.Length0 :: m[i, i] == 0
  }

  /** Every edge between two different cities is strictly positive. */
  ghost predicate PositiveOffDiagonal(m: array2<int>)
    reads m
    requires m.Length0 == m.Length1
  {
    forall i, j | 0 <= i < m.Length0 && 0 <= j < m.Length0 && i != j :: m[i, j] > 0
  }

  ghost predicate AllPositive(m: array2<real>)
    reads m
  {
    forall i, j | 0 <= i < m.Length0 && 0 <= j < m.Length1 :: m[i, j] > 0.0
  }
}

/**
  The distance table and the length of a closed tour
  (createDistanceMatrix and calculateTourDistance).
 */
module Distances {
  import opened Tours
  import opened Matrices

  /** A city as read from the instance file: its external identifier and
      its coordinates. Only its position in the city list is used as an
      index. */
  datatype City = City(id: int, x: real, y: real)

  /**
    Fills the upper triangle row by row, computing the distance of each
    pair i < j once, as `distance(cities[i], cities[j])`, and mirrors it
    into `[j, i]`; the diagonal keeps its initial 0. `distance` stands for
    calculateDistance with the metric tag fixed (EUC_2D, ATT or GEO).
   */
  method CreateDistanceMatrix(cities: seq<City>, distance: (City, City) -> int) returns (m: array2<int>)
    ensures IsSquare(m, |cities|)
    ensures forall i, j | 0 <= i < j < |cities| ::
      m[i, j] == distance(cities[i], cities[j]) && m[j, i] == distance(cities[i], cities[j])
    ensures ZeroDiagonal(m)
    ensures Symmetric(m)
  {
    var size := |cities|;
    m := new int[size, size]((_, _) => 0);
    for i := 0 to size
      invariant forall a, b | 0 <= a < size && 0 <= b < size ::
        m[a, b] == (if a < b && a < i then distance(cities[a], cities[b])
                    else if b < a && b < i then distance(cities[b], cities[a])
                    else 0)
    {
      for j := i + 1 to size
        invariant forall a, b | 0 <= a < size && 0 <= b < size ::
          m[a, b] == (if a < b && (a < i || (a == i && b < j)) then distance(cities[a], cities[b])
                      else if b < a && (b < i || (b == i && a < j)) then distance(cities[b], cities[a])
                      else 0)
      {
        var dist := distance(cities[i], cities[j]);
        m[i, j] := dist;
        m[j, i] := dist;
      }
    }
  }

  /** Sum of the first `k` edges of the closed tour `t`, edge `m` going from
      `t[m]` to the city after it (the first city, for the last edge). */
  function EdgeSum(t: seq<nat>, d: array2<int>, k: nat): int
    reads d
    requires k <= |t| && IsSquare(d, d.Length0) && InRange(t, d.Length0)
  {
    if k == 0 then 0 else EdgeSum(t, d, k - 1) + d[t[k - 1], t[Succ(t, k - 1)]]
  }

  /** Sum of the first `k` path edges `t[m] -> t[m+1]`, without the closing edge. */
  function PathSum(t: seq<nat>, d: array2<int>, k: nat): int
    reads d
    requires k < |t| && IsSquare(d, d.Length0) && InRange(t, d.Length0)
  {
    if k == 0 then 0 else PathSum(t, d, k - 1) + d[t[k - 1], t[k]]
  }

  /** The length of the closed tour: all its edges, the closing one included. */
  function TourLength(t: seq<nat>, d: array2<int>): int
    reads d
    requires IsSquare(d, d.Length0) && InRange(t, d.Length0)
  {
    EdgeSum(t, d, |t|)
  }

  /**
    Adds up the path `t[0] -> t[1] -> ... -> t[last]` and then the closing
    edge `t[last] -> t[0]`. A tour is never empty here (the source reads
    `tour[0]` unguarded).
   */
  method CalculateTourDistance(tour: seq<nat>, distances: array2<int>) returns (distance: int)
    requires IsSquare(distances, distances.Length0) && InRange(tour, distances.Length0)
    requires |tour| >= 1
    ensures distance == PathSum(tour, distances, |tour| - 1) + distances[tour[|tour| - 1], tour[0]]
    ensures distance == TourLength(tour, distances)
  {
    distance := 0;
    for i := 0 to |tour| - 1
      invariant distance == PathSum(tour, distances, i)
    {
      distance := distance + distances[tour[i], tour[i + 1]];
    }
    distance := distance + distances[tour[|tour| - 1], tour[0]];
    TourLengthClosesPath(tour, distances);
  }

  /** The closed-tour length is the path `t[0] -> ... -> t[last]` plus the
      closing edge `t[last] -> t[0]`. */
  lemma TourLengthClosesPath(t: seq<nat>, d: array2<int>)
    requires IsSquare(d, d.Length0) && InRange(t, d.Length0) && |t| >= 1
    ensures TourLength(t, d) == PathSum(t, d, |t| - 1) + d[t[|t| - 1], t[0]]
  {
    EdgeSumIsPathSum(t, d, |t| - 1);
  }

  /** Before the closing edge, the edges of the closed tour are the path edges. */
  lemma {:induction false} EdgeSumIsPathSum(t: seq<nat>, d: array2<int>, k: nat)
    requires IsSquare(d, d.Length0) && InRange(t, d.Length0) && k < |t|
    ensures EdgeSum(t, d, k) == PathSum(t, d, k)
  {
    if k > 0 {
      EdgeSumIsPathSum(t, d, k - 1);
    }
  }

  /** A one-city tour is its own closing edge: its length is the diagonal
      entry, hence 0 for a table built by CreateDistanceMatrix. */
  lemma SingleCityTour(c: nat, d: array2<int>)
    requires IsSquare(d, d.Length0) && c < d.Length0
    ensures TourLength([c], d) == d[c, c]
    ensures ZeroDiagonal(d) ==> TourLength([c], d) == 0
  {
    assert EdgeSum([c], d, 0) == 0;
  }

  /** With positive distances between different cities, every non-empty
      prefix of the edges of a tour over two or more distinct cities has
      positive length: each of its edges joins two different cities. */
  lemma {:induction false} EdgeSumPositive(t: seq<nat>, d: array2<int>, k: nat)
    requires IsSquare(d, d.Length0) && InRange(t, d.Length0) && k <= |t|
    requires PositiveOffDiagonal(d)
    requires |t| >= 2 && Distinct(t)
    ensures k == 0 ==> EdgeSum(t, d, k) == 0
    ensures k > 0 ==> EdgeSum(t, d, k) > 0
  {
    if k > 0 {
      EdgeSumPositive(t, d, k - 1);
      var s := Succ(t, k - 1);
      assert s != k - 1;
      assert t[k - 1] != t[s];
    }
  }

  /** Every complete ant tour of an instance with at least two cities and
      no two cities at distance 0 has positive length, so the pheromone
      deposit `PHEROMONE_DEPOSIT / length` is defined. */
  lemma TourLengthPositive(t: seq<nat>, d: array2<int>)
    requires IsSquare(d, d.Length0) && d.Length0 >= 2
    requires PositiveOffDiagonal(d)
    requires IsPermutation(t, d.Length0)
    ensures TourLength(t, d) > 0
  {
    EdgeSumPositive(t, d, |t|);
  }
}
