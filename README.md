# Ant Colony Optimisation for the Travelling Salesman Problem — a Dafny model

This project models the search engine of `TSP/tsp-aco.js`, which solves
TSPLIB instances with an ant colony. It covers the following steps:

- **The distance table.** An N×N table of integer distances is built from the city list. Each pair is computed once and mirrored.
- **Ant tours.** Each ant starts at a random city. It then repeatedly picks an unvisited city by a roulette wheel, where each candidate's weight combines the pheromone on the edge with the inverse distance.
- **Tour length.** Every edge of the tour is summed, including the closing edge back to the start.
- **Pheromone update.** After each generation the field is copied, every entry evaporates, and every ant lays `PHEROMONE_DEPOSIT / length` on both directions of each edge of its tour.
- **The colony driver.** It runs a fixed number of generations and keeps the first shortest tour it has seen.

The model is imperative where the JavaScript is:

- Matrices are `array2` values.
- Tours, wheels and visited sets are sequences and sets that the loops grow.
- Each method is proved against a specification function on its inputs.

The modules are:

- `Tours`: permutations and counting.
- `Matrices`: table predicates.
- `Distances`: `createDistanceMatrix` and `calculateTourDistance`.
- `Ants`: `selectNextCity` and `buildAntTour`.
- `Settings`: `ACO_CONFIG`.
- `Reals`: sign facts.
- `Pheromones`: `updatePheromones`.
- `Colony`: `runACO`.

Several inputs become parameters:

- **Randomness.** Each ant receives its stream of uniform draws `draw(0), draw(1), …` in [0, 1).
  - `draw(0)` picks the start city as `floor(draw(0) * N)`.
  - `draw(k)` is the `Math.random()` of the step that fills tour position `k`.
  - The driver takes a generator `rng(iteration, ant, step)`.
- **The metric.** `calculateDistance` with the metric tag fixed is the parameter `distance: (City, City) -> int`. Every metric rounds to an integer.
- **The weight.** The selection weight `pow(pheromone, ALPHA) * pow(1 / distance, BETA)` is the parameter `weight: (real, int) -> real`.
- **Arithmetic.** Pheromone arithmetic is exact (`real`). JavaScript's `Infinity` for the initial best length is the `Bound` value `Infinity`.

The code has no safeguards against degenerate inputs. The model excludes the runs they would allow, because the parameter types above carry neither `NaN` nor `Infinity`:

- **GEO arc-cosine.** `calculateDistance` does not clamp the argument of `Math.acos` (`TSP/tsp-aco.js:73`). Rounding can push it above 1, and the distance is then `NaN`. The model's `distance` returns an integer for every pair.
- **Zero distances.** `selectNextCity` computes `1 / distances[current][i]` with no guard (`TSP/tsp-aco.js:130`). Identical coordinates under EUC_2D or ATT, and EUC_2D cities closer than 0.5, have distance 0. The weight of such a candidate is `Infinity`, and so are `total` and `rand`. Under GEO, identical points are at distance 1 (`acos(1) = 0`, then `floor(0 + 1)`), so GEO instances are not excluded for that reason.
  - The wheel then takes the first candidate at distance 0.
  - If `Math.random()` returns 0, `rand` is `NaN` and the wheel falls back to the first candidate (`TSP/tsp-aco.js:142`).
  - The model's `weight` returns a real for every argument. `Colony.RunACO` and `Colony.Iterate` require positive distances between different cities, so they exclude these instances.
- **Small instances.** Fewer than two cities are not rejected. Only an empty city list stops `main` (`TSP/tsp-aco.js:204`).
  - A one-city instance runs. Its tour has length 0, as `Distances.SingleCityTour` shows, and the deposit `500 / 0` is `Infinity`.
  - The pheromone update therefore requires non-zero tour lengths, and the driver requires at least two cities.

## Model

| member | source | states |
|---|---|---|
| Tours.RangeCard | TSP/tsp-aco.js:109-113 | counting helper for UnvisitedExists and PermutationIffCovers: the city indices `0 .. n-1` are exactly n cities |
| Tours.SubsetCard | TSP/tsp-aco.js:111-117 | counting helper for UnvisitedExists and PermutationIffCovers: a subset of a set of cities is no larger than the set |
| Tours.ElemsCard | TSP/tsp-aco.js:111-117 | the visited set of a tour has at most as many cities as the tour has positions, and exactly as many when no city repeats |
| Tours.RepeatShrinksElems | TSP/tsp-aco.js:111-117 | a tour with a repeated city has a visited set smaller than its length |
| Tours.UnvisitedExists | TSP/tsp-aco.js:113-115 | while the tour is shorter than N some city is unvisited, so selectNextCity always has a candidate |
| Tours.PermutationIffCovers | TSP/tsp-aco.js:108-120 | a tour is a permutation of `0 .. N-1` iff it has N positions and its visited set is exactly `{0, …, N-1}` (both directions) |
| Distances.CreateDistanceMatrix | TSP/tsp-aco.js:43-55 | the table is N×N; for every i < j both `[i, j]` and `[j, i]` hold `distance(cities[i], cities[j])`, always with that argument order; the diagonal is 0; the table is symmetric |
| Distances.CalculateTourDistance | TSP/tsp-aco.js:145-152 | for an n-city tour the result is the path sum `PathSum(t, d, n - 1)` of `d[t[k], t[k+1]]` over consecutive positions plus the closing edge `d[t[last], t[0]]`, which is `TourLength` |
| Distances.TourLengthClosesPath | TSP/tsp-aco.js:145-152 | the closed-tour length is the open path `t[0] -> … -> t[last]` (`PathSum`, the first loop) plus the closing edge `d[t[last], t[0]]` |
| Distances.EdgeSumIsPathSum | TSP/tsp-aco.js:147-149 | before the closing edge, the first `k` edges of the closed tour are the first `k` path edges `d[t[m], t[m+1]]` |
| Distances.SingleCityTour | TSP/tsp-aco.js:145-152 | a one-city tour has length `d[c, c]`, which is 0 for a table built by CreateDistanceMatrix |
| Distances.EdgeSumPositive | TSP/tsp-aco.js:145-152 | with positive distances between different cities, any non-empty run of edges of a tour over two or more distinct cities has positive length |
| Distances.TourLengthPositive | TSP/tsp-aco.js:145-152 | every complete tour of two or more cities with positive distances has positive length, so `PHEROMONE_DEPOSIT / distance` is defined |
| Ants.ChoicesSlots | TSP/tsp-aco.js:127-134 | every slot of the wheel is an unvisited city below N carrying the weight of its pheromone and distance from `current` |
| Ants.ChoicesSorted | TSP/tsp-aco.js:127-134 | the wheel's cities are in strictly increasing index order, hence without repeats |
| Ants.ChoicesCover | TSP/tsp-aco.js:127-134 | every unvisited city has a slot on the wheel (with ChoicesSlots: the wheel's cities are exactly the unvisited ones) |
| Ants.ChoicesLowest | TSP/tsp-aco.js:127-134 | the wheel is empty only when every city is visited, and its first slot holds the lowest-index unvisited city |
| Ants.RunningSumAppend | TSP/tsp-aco.js:131-132 | appending a slot leaves the running sums of the earlier slots unchanged |
| Ants.FirstReaching | TSP/tsp-aco.js:137-141 | the stop position is the first one whose running sum reaches the draw: every earlier running sum is below it, and the position's own sum reaches it, unless no slot does |
| Ants.NextCity | TSP/tsp-aco.js:122-143 | the chosen city is a city below N that is not visited |
| Ants.SelectNextCity | TSP/tsp-aco.js:122-143 | with some city unvisited, returns an unvisited city below N, namely the wheel's choice `NextCity` for the draw `u * total` |
| Ants.BuildWheel | TSP/tsp-aco.js:123-134 | the collected `probabilities` are the wheel of unvisited cities in index order with their weights, and `total` is the sum of their weights |
| Ants.NextCityUnfold | TSP/tsp-aco.js:136-142 | the wheel of a state with an unvisited city is non-empty, so the spin of the second pass always has a slot to return |
| Ants.SpinWheel | TSP/tsp-aco.js:136-142 | returns the city of the first slot whose running sum reaches `rand`, or the first slot's city when none does |
| Ants.StartCity | TSP/tsp-aco.js:110 | `floor(u * N)` for a draw `u` in [0, 1) is a city index below N |
| Ants.BuildAntTour | TSP/tsp-aco.js:108-120 | the tour is a permutation of `0 .. N-1` (length N, no repeats); it starts at `floor(draw(0) * N)`; each later city is the wheel's choice from its predecessor, given the cities before it as the visited set and that step's draw; the loop keeps `visited` equal to the tour's cities and terminates |
| Ants.RunningSumNonNegative | TSP/tsp-aco.js:137-139 | with non-negative weights every running sum is non-negative |
| Ants.DrawWithinTotal | TSP/tsp-aco.js:136 | the draw `u * total` lies in [0, total] for `u` in [0, 1), and is positive when `u` and `total` are |
| Ants.WheelReachesDraw | TSP/tsp-aco.js:136-142 | with non-negative weights and exact arithmetic the running sum always reaches the draw, so the fallback at line 142 is never taken |
| Ants.SpunSlotHasWeight | TSP/tsp-aco.js:137-141 | for a positive draw the chosen slot's running sum before it is below the draw and the sum through it reaches the draw, so the slot has positive weight |
| Ants.NextCityByRoulette | TSP/tsp-aco.js:127-141 | with non-negative weights the chosen city is the first unvisited city in index order whose prefix sum of weights is at least `u * total`, and it has positive weight when the draw and total are positive |
| Ants.FallbackIsLowestUnvisited | TSP/tsp-aco.js:142 | when no running sum reaches the draw, the chosen city is the lowest-index unvisited city |
| Settings.ConfigKeepsTrails | TSP/tsp-aco.js:6-13 | the program's own settings (EVAPORATION 0.7, PHEROMONE_DEPOSIT 500) satisfy `KeepsTrails`, so the positivity results apply to the program as configured |
| Pheromones.CopyField | TSP/tsp-aco.js:156 | the copy is a new array of the same shape with the same entries |
| Pheromones.Evaporate | TSP/tsp-aco.js:158-163 | every entry becomes its old value times `1 - EVAPORATION` |
| Pheromones.LayEdge | TSP/tsp-aco.js:168-176 | adds the share to `[from, to]` and `[to, from]` for one edge, twice to the same cell for a self-loop, and nothing elsewhere |
| Pheromones.DepositTour | TSP/tsp-aco.js:166-177 | each cell gains exactly one ant's deposit `TourDeposit` over all edges of its closed tour, the closing edge included |
| Pheromones.UpdatePheromones | TSP/tsp-aco.js:154-180 | returns an N×N field with `[i, j] == old[i, j] * (1 - EVAPORATION) + Deposit(antTours, i, j)` while the input field is unchanged; keeps symmetry; keeps strict positivity when `0 <= EVAPORATION < 1`, the deposit is non-negative and every tour length is positive |
| Pheromones.UpdateKeepsSymmetry | TSP/tsp-aco.js:159-177 | evaporating a symmetric field and adding the deposits gives a symmetric field |
| Pheromones.UpdateKeepsPositive | TSP/tsp-aco.js:159-177 | evaporating a positive field at a rate below 1 and adding non-negative deposits gives a positive field |
| Pheromones.TourDepositSymmetric | TSP/tsp-aco.js:168-176 | one tour lays as much on `[x, y]` as on `[y, x]` |
| Pheromones.DepositSymmetric | TSP/tsp-aco.js:166-177 | all the ants together lay as much on `[x, y]` as on `[y, x]` |
| Pheromones.TourDepositPositive | TSP/tsp-aco.js:168-176 | with a positive share, a tour's deposit on a cell is non-negative, and positive iff one of its edges joins the two cities (both directions) |
| Pheromones.TourDepositUntouched | TSP/tsp-aco.js:168-176 | a cell that no edge of the tour joins receives nothing from it |
| Pheromones.TourDepositNonNegative | TSP/tsp-aco.js:168-176 | with a non-negative share a tour lays a non-negative amount on every cell |
| Pheromones.DepositNonNegative | TSP/tsp-aco.js:166-177 | with a non-negative PHEROMONE_DEPOSIT and positive lengths, the ants lay a non-negative amount on every cell |
| Pheromones.DepositPositiveIffTraversed | TSP/tsp-aco.js:166-177 | with a positive deposit and positive lengths, a cell receives pheromone iff some ant's tour walks the edge between its two cities (both directions) |
| Pheromones.DepositUntouched | TSP/tsp-aco.js:166-177 | entries on no tour edge receive no deposit, so they are only evaporated |
| Colony.RunGeneration | TSP/tsp-aco.js:88-99 | records exactly ANTS ants, each built by the wheel from its own draws on the current field and measured by its tour length; the best afterwards is `Track` of the previous best over those ants |
| Colony.Iterate | TSP/tsp-aco.js:87-102 | one generation then one update: the new field is the update of the old one by this generation's ants; symmetry, and positivity under KeepsTrails, carry over |
| Colony.RunACO | TSP/tsp-aco.js:80-106 | records ITERATIONS generations and exactly ITERATIONS field replacements, starting from a field of 1s; every field is symmetric and, under KeepsTrails, positive; the returned best is `Track` over all ants in order (`Infinity` and no tour when there are none); after at least one ant it is a permutation with `bestDistance == calculateTourDistance(bestTour)` |
| Colony.BestIsMeasured | TSP/tsp-aco.js:94-98 | after a non-empty run of measured ants, the best is one of their tours with its own length |
| Colony.TrackAppend | TSP/tsp-aco.js:89-98 | tracking the best over two runs of ants in turn is tracking it over their concatenation |
| Colony.TrackImproves | TSP/tsp-aco.js:94-98 | the best length after any ants is at most the best length before them |
| Colony.TrackNeverIncreases | TSP/tsp-aco.js:94-98 | `bestDistance` never increases: after more ants it is at most what it was after fewer |
| Colony.TrackFirstMinimum | TSP/tsp-aco.js:94-98 | from `Infinity`, the best after a non-empty run is the tour and length of an ant whose length is the minimum, and every earlier ant is strictly longer, so ties keep the earlier tour |

## Left out

- `readTSPFile` (lines 16-40): file I/O, gunzip and text parsing, with a catch-all that returns `[]`. A city list is an input to the model.
- `saveTourFile` (lines 183-195): a file write with 1-based renumbering.
- `main` (lines 198-220): the command line, the metric chosen from the file name, timing and logging.
- The `console.log` of each new best (line 97) is left out.
- `calculateDistance` (lines 57-77): square roots, cosines, arc-cosine and floating-point rounding. It is the integer-valued parameter `distance`.
- `Math.pow` (lines 129-130) is the real-valued parameter `weight`. Weights are only assumed non-negative where a lemma says so.
- `Math.random` (lines 110 and 136) becomes the draw streams described above.
- Floating point: sums, products and quotients are exact reals, with no rounding, `Infinity` or `NaN`. Consequently the roulette fallback at line 142 is reached only with negative weights, never through rounding.
- Pheromones.UpdatePheromones: requires every tour to be non-empty and every tour length to be non-zero. The source divides by the length and would store `Infinity` for a zero-length tour.
- Ants.BuildAntTour: requires at least one city. For an empty table the source returns `[0]`, naming a city that does not exist; `main` never runs the search without cities.
- Colony.RunACO: requires at least two cities, positive distances between different cities, and draws in [0, 1). It therefore excludes instances the source does run: identical coordinates under EUC_2D or ATT, and EUC_2D pairs closer than 0.5 (an `Infinity` weight at `TSP/tsp-aco.js:130`), and one-city instances (a `500 / 0` deposit).
- Colony.Iterate: requires positive distances between different cities, for the same reason as Colony.RunACO.
- `ATIVIDADE_FINAL/main.py` is not part of this model: model training and plotting through external libraries.
- JavaScript's nested arrays become `array2` tables. The source never shares rows, so row aliasing is not modelled.
