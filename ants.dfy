/**
  One ant's construction of a tour (buildAntTour) and the roulette-wheel
  choice of each next city (selectNextCity).

  Randomness is explicit: an ant is given its stream of uniform draws
  `draw(0), draw(1), ...` in [0, 1); `draw(0)` picks the start city and
  `draw(k)` is the draw of the step that fills tour position k. The weight
  `pow(pheromone, ALPHA) * pow(1 / distance, BETA)` of a candidate is the
  function `weight(pheromone, distance)`.
 */
module Ants {
  import opened Tours
  import opened Matrices
  import opened Reals

  /** One slot of the roulette wheel: an unvisited city and its weight. */
  datatype Choice = Choice(city: nat, value: real)

  /** The distance table and the pheromone field have the same size. */
  predicate SameSize(d: array2<int>, p: array2<real>)
  {
    IsSquare(d, d.Length0) && IsSquare(p, d.Length0)
  }

  /**
    The wheel built from the cities `0 .. k-1`: every unvisited one, in
    increasing index order, with its weight seen from `current`.
   */
  function Choices(current: nat, visited: set<nat>, d: array2<int>, p: array2<real>,
                   weight: (real, int) -> real, k: nat): seq<Choice>
    reads d, p
    requires SameSize(d, p) && current < d.Length0 && k <= d.Length0
  {
    if k == 0 then []
    else
      var cs := Choices(current, visited, d, p, weight, k - 1);
      if k - 1 in visited then cs
      else cs + [Choice(k - 1, weight(p[current, k - 1], d[current, k - 1]))]
  }

  /** Every slot of `cs` holds an unvisited city below `k` with its weight
      seen from `current`. */
  ghost predicate SlotsBelow(cs: seq<Choice>, current: nat, visited: set<nat>, d: array2<int>, p: array2<real>,
                             weight: (real, int) -> real, k: nat)
    reads d, p
    requires SameSize(d, p) && current < d.Length0 && k <= d.Length0
  {
    forall m | 0 <= m < |cs| ::
      && cs[m].city < k && cs[m].city !in visited
      && cs[m].value == weight(p[current, cs[m].city], d[current, cs[m].city])
  }

  /** The cities of `cs` are in strictly increasing index order. */
  ghost predicate Increasing(cs: seq<Choice>)
  {
    forall a, b | 0 <= a < b < |cs| :: cs[a].city < cs[b].city
  }

  /** Every unvisited city below `k` has a slot in `cs`. */
  ghost predicate Covers(cs: seq<Choice>, visited: set<nat>, k: nat)
  {
    forall c | 0 <= c < k && c !in visited :: Listed(cs, c)
  }

  /** `cs` is empty only when every city below `k` is visited, and its
      first slot holds the lowest unvisited one. */
  ghost predicate LowestFirst(cs: seq<Choice>, visited: set<nat>, k: nat)
  {
    forall c | 0 <= c < k && c !in visited :: cs != [] && cs[0].city <= c
  }

  lemma {:induction false} ChoicesSlots(current: nat, visited: set<nat>, d: array2<int>, p: array2<real>,
                                        weight: (real, int) -> real, k: nat)
    requires SameSize(d, p) && current < d.Length0 && k <= d.Length0
    ensures SlotsBelow(Choices(current, visited, d, p, weight, k), current, visited, d, p, weight, k)
  {
    if k > 0 {
      ChoicesSlots(current, visited, d, p, weight, k - 1);
      var cs := Choices(current, visited, d, p, weight, k - 1);
      if k - 1 !in visited {
        var slot := Choice(k - 1, weight(p[current, k - 1], d[current, k - 1]));
        assert forall m | 0 <= m < |cs| + 1 :: (cs + [slot])[m] == if m < |cs| then cs[m] else slot;
      }
    }
  }

  lemma {:induction false} ChoicesSorted(current: nat, visited: set<nat>, d: array2<int>, p: array2<real>,
                                         weight: (real, int) -> real, k: nat)
    requires SameSize(d, p) && current < d.Length0 && k <= d.Length0
    ensures Increasing(Choices(current, visited, d, p, weight, k))
  {
    if k > 0 {
      ChoicesSorted(current, visited, d, p, weight, k - 1);
      ChoicesSlots(current, visited, d, p, weight, k - 1);
      var cs := Choices(current, visited, d, p, weight, k - 1);
      if k - 1 !in visited {
        var slot := Choice(k - 1, weight(p[current, k - 1], d[current, k - 1]));
        assert forall m | 0 <= m < |cs| + 1 :: (cs + [slot])[m] == if m < |cs| then cs[m] else slot;
      }
    }
  }

  lemma {:induction false} ChoicesCover(current: nat, visited: set<nat>, d: array2<int>, p: array2<real>,
                                        weight: (real, int) -> real, k: nat)
    requires SameSize(d, p) && current < d.Length0 && k <= d.Length0
    ensures Covers(Choices(current, visited, d, p, weight, k), visited, k)
  {
    if k > 0 {
      ChoicesCover(current, visited, d, p, weight, k - 1);
      var cs := Choices(current, visited, d, p, weight, k - 1);
      if k - 1 !in visited {
        var slot := Choice(k - 1, weight(p[current, k - 1], d[current, k - 1]));
        forall c | 0 <= c < k && c !in visited ensures Listed(cs + [slot], c) {
          if c < k - 1 {
            var m :| 0 <= m < |cs| && cs[m].city == c;
            assert (cs + [slot])[m] == cs[m];
          } else {
            assert (cs + [slot])[|cs|] == slot;
          }
        }
      }
    }
  }

  lemma {:induction false} ChoicesLowest(current: nat, visited: set<nat>, d: array2<int>, p: array2<real>,
                                         weight: (real, int) -> real, k: nat)
    requires SameSize(d, p) && current < d.Length0 && k <= d.Length0
    ensures LowestFirst(Choices(current, visited, d, p, weight, k), visited, k)
  {
    if k > 0 {
      ChoicesLowest(current, visited, d, p, weight, k - 1);
      ChoicesSlots(current, visited, d, p, weight, k - 1);
      var cs := Choices(current, visited, d, p, weight, k - 1);
      if k - 1 !in visited {
        var slot := Choice(k - 1, weight(p[current, k - 1], d[current, k - 1]));
        assert (cs + [slot])[0] == if cs == [] then slot else cs[0];
      }
    }
  }

  /** `c` has a slot on the wheel `cs`. */
  ghost predicate Listed(cs: seq<Choice>, c: nat)
  {
    exists m :: 0 <= m < |cs| && cs[m].city == c
  }

  /** Some city of `0 .. size-1` is not yet visited. */
  ghost predicate SomeUnvisited(visited: set<nat>, size: nat)
  {
    exists c :: 0 <= c < size && c !in visited
  }

  /** Sum of the weights of the first `m` slots of the wheel. */
  function RunningSum(cs: seq<Choice>, m: nat): real
    requires m <= |cs|
  {
    if m == 0 then 0.0 else RunningSum(cs, m - 1) + cs[m - 1].value
  }

  /** Sum of all the weights on the wheel. */
  function Total(cs: seq<Choice>): real
  {
    RunningSum(cs, |cs|)
  }

  /** Appending a slot leaves the running sums before it unchanged. */
  lemma {:induction false} RunningSumAppend(cs: seq<Choice>, slot: Choice, m: nat)
    requires m <= |cs|
    ensures RunningSum(cs + [slot], m) == RunningSum(cs, m)
  {
    if m > 0 {
      RunningSumAppend(cs, slot, m - 1);
      assert (cs + [slot])[m - 1] == cs[m - 1];
    }
  }

  /**
    The position of the first of the slots `0 .. n-1`, in wheel order, at
    which the running sum of weights reaches `rand`; `n` when none does.
   */
  function FirstReaching(cs: seq<Choice>, rand: real, n: nat): (k: nat)
    requires n <= |cs|
    ensures k <= n
    ensures k < n ==> RunningSum(cs, k + 1) >= rand
    ensures forall j | 1 <= j <= k :: RunningSum(cs, j) < rand
  {
    if n == 0 then 0
    else
      var k := FirstReaching(cs, rand, n - 1);
      if k < n - 1 then k
      else if RunningSum(cs, n) >= rand then n - 1
      else n
  }

  /** The draw `Math.random() * total`, for the uniform draw `u`. */
  function Draw(u: real, total: real): real
  {
    u * total
  }

  /** The slot the wheel stops at for the draw `rand`; `|cs|` if none. */
  function Spin(cs: seq<Choice>, rand: real): nat
  {
    FirstReaching(cs, rand, |cs|)
  }

  /**
    The city selectNextCity returns: the draw is `u * total`; the first
    unvisited city whose running sum reaches it is chosen, and if none
    does, the first unvisited city.
   */
  function NextCity(current: nat, visited: set<nat>, d: array2<int>, p: array2<real>,
                    weight: (real, int) -> real, u: real): (next: nat)
    reads d, p
    requires SameSize(d, p) && current < d.Length0
    requires SomeUnvisited(visited, d.Length0)
    ensures next < d.Length0 && next !in visited
  {
    var cs := Choices(current, visited, d, p, weight, d.Length0);
    ChoicesLowest(current, visited, d, p, weight, d.Length0);
    ChoicesSlots(current, visited, d, p, weight, d.Length0);
    var k := Spin(cs, Draw(u, Total(cs)));
    if k < |cs| then cs[k].city else cs[0].city
  }

  /**
    selectNextCity: one pass over the cities collects the unvisited ones
    with their weights and their total (BuildWheel); a second pass
    accumulates the weights until the sum reaches the draw
    `Math.random() * total` (SpinWheel).
   */
  method SelectNextCity(current: nat, visited: set<nat>, distances: array2<int>, pheromones: array2<real>,
                        weight: (real, int) -> real, u: real) returns (next: nat)
    requires SameSize(distances, pheromones) && current < distances.Length0
    requires SomeUnvisited(visited, distances.Length0)
    ensures next < distances.Length0 && next !in visited
    ensures next == NextCity(current, visited, distances, pheromones, weight, u)
  {
    var probabilities, total := BuildWheel(current, visited, distances, pheromones, weight);
    NextCityUnfold(current, visited, distances, pheromones, weight, u);
    next := SpinWheel(probabilities, Draw(u, total));
  }

  /** The first pass of selectNextCity: the unvisited cities in index
      order with their weights, and the sum of those weights. */
  method BuildWheel(current: nat, visited: set<nat>, distances: array2<int>, pheromones: array2<real>,
                    weight: (real, int) -> real) returns (probabilities: seq<Choice>, total: real)
    requires SameSize(distances, pheromones) && current < distances.Length0
    ensures probabilities == Choices(current, visited, distances, pheromones, weight, distances.Length0)
    ensures total == Total(probabilities)
  {
    total := 0.0;
    probabilities := [];
    for i := 0 to distances.Length0
      invariant probabilities == Choices(current, visited, distances, pheromones, weight, i)
      invariant total == Total(probabilities)
    {
      if i !in visited {
        var slot := Choice(i, weight(pheromones[current, i], distances[current, i]));
        RunningSumAppend(probabilities, slot, |probabilities|);
        probabilities := probabilities + [slot];
        total := total + slot.value;
      }
    }
  }

  /** NextCity spins the full wheel of unvisited cities, which is never empty. */
  lemma NextCityUnfold(current: nat, visited: set<nat>, d: array2<int>, p: array2<real>,
                       weight: (real, int) -> real, u: real)
    requires SameSize(d, p) && current < d.Length0
    requires SomeUnvisited(visited, d.Length0)
    ensures var cs := Choices(current, visited, d, p, weight, d.Length0);
      var k := Spin(cs, Draw(u, Total(cs)));
      cs != [] && NextCity(current, visited, d, p, weight, u) == if k < |cs| then cs[k].city else cs[0].city
  {
    var cs := Choices(current, visited, d, p, weight, d.Length0);
    ChoicesLowest(current, visited, d, p, weight, d.Length0);
  }

  /**
    The second pass of selectNextCity: accumulates the weights in wheel
    order and returns the first city at which the sum reaches `rand`, or
    the first city on the wheel when none does.
   */
  method SpinWheel(probabilities: seq<Choice>, rand: real) returns (next: nat)
    requires probabilities != []
    ensures var k := Spin(probabilities, rand);
      next == if k < |probabilities| then probabilities[k].city else probabilities[0].city
  {
    var sum := 0.0;
    for k := 0 to |probabilities|
      invariant sum == RunningSum(probabilities, k)
      invariant forall j | 1 <= j <= k :: RunningSum(probabilities, j) < rand
    {
      sum := sum + probabilities[k].value;
      assert sum == RunningSum(probabilities, k + 1);
      if sum >= rand {
        next := probabilities[k].city;
        return;
      }
    }
    next := probabilities[0].city;
  }

  /** The start city `floor(u * size)` of an ant whose first draw is `u`. */
  function StartCity(u: real, size: nat): (c: nat)
    requires 0.0 <= u < 1.0 && size >= 1
    ensures c < size
  {
    assert 0.0 <= u * size as real < size as real;
    (u * size as real).Floor
  }

  /**
    Step `k` of the tour `t` is the wheel's choice: when position `k` was
    filled some city was unvisited, and `t[k]` is the city the wheel picks
    from `t[k-1]` with the cities of `t[..k]` visited and the draw `u`.
   */
  ghost predicate ChoseNext(t: seq<nat>, k: nat, d: array2<int>, p: array2<real>,
                            weight: (real, int) -> real, u: real)
    reads d, p
    requires SameSize(d, p) && 1 <= k < |t| && InRange(t, d.Length0)
  {
    SomeUnvisited(Elems(t[..k]), d.Length0) &&
    t[k] == NextCity(t[k - 1], Elems(t[..k]), d, p, weight, u)
  }

  /** Every step after the first of `t` is the wheel's choice with its own draw. */
  ghost predicate WheelBuilt(t: seq<nat>, d: array2<int>, p: array2<real>,
                             weight: (real, int) -> real, draw: nat -> real)
    reads d, p
    requires SameSize(d, p) && InRange(t, d.Length0)
  {
    forall k | 1 <= k < |t| :: ChoseNext(t, k, d, p, weight, draw(k))
  }

  /** Appending the wheel's choice from the last city keeps WheelBuilt. */
  lemma WheelBuiltExtends(t: seq<nat>, next: nat, d: array2<int>, p: array2<real>,
                          weight: (real, int) -> real, draw: nat -> real)
    requires SameSize(d, p) && 1 <= |t| && InRange(t, d.Length0)
    requires WheelBuilt(t, d, p, weight, draw)
    requires SomeUnvisited(Elems(t), d.Length0)
    requires next == NextCity(t[|t| - 1], Elems(t), d, p, weight, draw(|t|))
    ensures InRange(t + [next], d.Length0)
    ensures WheelBuilt(t + [next], d, p, weight, draw)
  {
    var longer := t + [next];
    assert longer[..|t|] == t;
    assert forall k | 1 <= k < |t| :: longer[..k] == t[..k];
  }

  /**
    buildAntTour: starts from the city chosen by the first draw and
    appends the next city chosen by the wheel until every city is on the
    tour, keeping `visited` equal to the set of cities on the tour.
   */
  method BuildAntTour(distances: array2<int>, pheromones: array2<real>,
                      weight: (real, int) -> real, draw: nat -> real) returns (tour: seq<nat>)
    requires SameSize(distances, pheromones) && distances.Length0 >= 1
    requires 0.0 <= draw(0) < 1.0
    ensures IsPermutation(tour, distances.Length0)
    ensures tour[0] == StartCity(draw(0), distances.Length0)
    ensures forall k | 1 <= k < |tour| :: ChoseNext(tour, k, distances, pheromones, weight, draw(k))
  {
    var size := distances.Length0;
    tour := [StartCity(draw(0), size)];
    var visited: set<nat> := {tour[0]};
    while |tour| < size
      invariant 1 <= |tour| <= size
      invariant InRange(tour, size) && Distinct(tour)
      invariant visited == Elems(tour)
      invariant tour[0] == StartCity(draw(0), size)
      invariant WheelBuilt(tour, distances, pheromones, weight, draw)
      decreases size - |tour|
    {
      var current := tour[|tour| - 1];
      UnvisitedExists(tour, size);
      var next := SelectNextCity(current, visited, distances, pheromones, weight, draw(|tour|));
      var longer := tour + [next];
      WheelBuiltExtends(tour, next, distances, pheromones, weight, draw);
      assert longer[..|tour|] == tour;
      assert Elems(longer) == visited + {next};
      tour := longer;
      visited := visited + {next};
    }
  }

  lemma {:induction false} RunningSumNonNegative(cs: seq<Choice>, m: nat)
    requires m <= |cs|
    requires forall j | 0 <= j < |cs| :: cs[j].value >= 0.0
    ensures RunningSum(cs, m) >= 0.0
  {
    if m > 0 {
      RunningSumNonNegative(cs, m - 1);
    }
  }

  /** A draw `u` in [0, 1) scales a non-negative total into [0, total]. */
  lemma DrawWithinTotal(u: real, t: real)
    requires 0.0 <= u < 1.0 && t >= 0.0
    ensures 0.0 <= Draw(u, t) <= t
    ensures 0.0 < u && 0.0 < t ==> 0.0 < Draw(u, t)
  {
    ProductNonNegative(1.0 - u, t);
    assert t - Draw(u, t) == (1.0 - u) * t;
    if 0.0 < u && 0.0 < t {
      ProductPositive(u, t);
    }
  }

  /** With non-negative weights and a draw `u * total` for `u` in [0, 1),
      some running sum always reaches the draw: the fallback is never taken. */
  lemma WheelReachesDraw(cs: seq<Choice>, u: real)
    requires 0.0 <= u < 1.0 && cs != []
    requires forall m | 0 <= m < |cs| :: cs[m].value >= 0.0
    ensures Spin(cs, Draw(u, Total(cs))) < |cs|
  {
    RunningSumNonNegative(cs, |cs|);
    DrawWithinTotal(u, Total(cs));
  }

  /** A slot reached by a positive draw carries a positive weight: the draw
      falls strictly after the running sum before the slot and no later
      than the running sum through it. */
  lemma SpunSlotHasWeight(cs: seq<Choice>, rand: real)
    requires rand > 0.0 && Spin(cs, rand) < |cs|
    ensures RunningSum(cs, Spin(cs, rand)) < rand <= RunningSum(cs, Spin(cs, rand) + 1)
    ensures cs[Spin(cs, rand)].value > 0.0
  {
    var k := Spin(cs, rand);
    if k > 0 {
      assert RunningSum(cs, k) < rand;
    }
  }

  /**
    With non-negative weights and a draw `u` in [0, 1), the city chosen is
    the first unvisited city, in index order, whose running sum of weights
    reaches `u * total`; when the draw and the total are positive that city
    has positive weight.
   */
  lemma NextCityByRoulette(current: nat, visited: set<nat>, d: array2<int>, p: array2<real>,
                           weight: (real, int) -> real, u: real)
    requires SameSize(d, p) && current < d.Length0
    requires SomeUnvisited(visited, d.Length0)
    requires forall x, y :: weight(x, y) >= 0.0
    requires 0.0 <= u < 1.0
    ensures var cs := Choices(current, visited, d, p, weight, d.Length0);
      var k := Spin(cs, Draw(u, Total(cs)));
      k < |cs| && NextCity(current, visited, d, p, weight, u) == cs[k].city &&
      (0.0 < u && 0.0 < Total(cs) ==> cs[k].value > 0.0)
  {
    var cs := Choices(current, visited, d, p, weight, d.Length0);
    NextCityUnfold(current, visited, d, p, weight, u);
    ChoicesSlots(current, visited, d, p, weight, d.Length0);
    forall m | 0 <= m < |cs| ensures cs[m].value >= 0.0 {
      var c := cs[m].city;
      var x, y := p[current, c], d[current, c];
      assert weight(x, y) >= 0.0;
      assert cs[m].value == weight(x, y);
    }
    WheelReachesDraw(cs, u);
    if 0.0 < u && 0.0 < Total(cs) {
      DrawWithinTotal(u, Total(cs));
      SpunSlotHasWeight(cs, Draw(u, Total(cs)));
    }
  }

  /** When no running sum reaches the draw, the city chosen is the
      lowest-index unvisited city. */
  lemma FallbackIsLowestUnvisited(current: nat, visited: set<nat>, d: array2<int>, p: array2<real>,
                                  weight: (real, int) -> real, u: real)
    requires SameSize(d, p) && current < d.Length0
    requires SomeUnvisited(visited, d.Length0)
    requires var cs := Choices(current, visited, d, p, weight, d.Length0);
      Spin(cs, Draw(u, Total(cs))) == |cs|
    ensures forall c | 0 <= c < NextCity(current, visited, d, p, weight, u) :: c in visited
  {
    NextCityUnfold(current, visited, d, p, weight, u);
    ChoicesLowest(current, visited, d, p, weight, d.Length0);
  }
}
