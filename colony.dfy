/**
  The colony driver (runACO): a fixed number of generations, each sending
  out a fixed number of ants over the current pheromone field, keeping the
  shortest tour seen so far, then replacing the field by its update.
 */
module Colony {
  import opened Tours
  import opened Matrices
  import opened Settings
  import opened Distances
  import opened Ants
  import opened Pheromones

  /** `bestDistance`: Infinity before the first ant, then a tour length. */
  datatype Bound = Infinity | Finite(value: int)

  /** The best tour so far and its length. */
  datatype Best = Best(tour: seq<nat>, distance: Bound)

  /** The state before the first ant: no tour, length Infinity. */
  const NoBest := Best([], Infinity)

  /** `d < bound`, Infinity being above every length. */
  predicate Below(d: int, bound: Bound)
  {
    bound.Infinity? || d < bound.value
  }

  /** `a <= b` on bounds. */
  predicate AtMost(a: Bound, b: Bound)
  {
    b.Infinity? || (a.Finite? && a.value <= b.value)
  }

  /** The best after offering the ants of `records`, in order, to `best`:
      an ant replaces it only with a strictly shorter tour. */
  function Track(best: Best, records: seq<AntTour>): Best
  {
    if records == [] then best
    else
      var before := Track(best, records[..|records| - 1]);
      var last := records[|records| - 1];
      if Below(last.distance, before.distance) then Best(last.tour, Finite(last.distance)) else before
  }

  /** All the ants of all the generations, in the order they ran. */
  function Flatten(generations: seq<seq<AntTour>>): seq<AntTour>
  {
    if generations == [] then []
    else Flatten(generations[..|generations| - 1]) + generations[|generations| - 1]
  }

  /** The draws of ant `ant` of generation `iter`: `rng(iter, ant, step)`. */
  function Stream(rng: (nat, nat, nat) -> real, iter: nat, ant: nat): nat -> real
  {
    (step: nat) => rng(iter, ant, step)
  }

  /** Every draw of the generator lies in [0, 1), as Math.random's do. */
  ghost predicate Uniform(rng: (nat, nat, nat) -> real)
  {
    forall iter, ant, step :: 0.0 <= rng(iter, ant, step) < 1.0
  }

  /**
    `rec` is what an ant with the draws `draw` records on the field `p`:
    a tour through every city, built city by city by the wheel, and its
    length.
   */
  ghost predicate Walked(rec: AntTour, d: array2<int>, p: array2<real>,
                         weight: (real, int) -> real, draw: nat -> real)
    reads d, p
    requires SameSize(d, p) && d.Length0 >= 1 && 0.0 <= draw(0) < 1.0
  {
    && IsPermutation(rec.tour, d.Length0)
    && rec.tour[0] == StartCity(draw(0), d.Length0)
    && (forall k | 1 <= k < |rec.tour| :: ChoseNext(rec.tour, k, d, p, weight, draw(k)))
    && rec.distance == TourLength(rec.tour, d)
  }

  /**
    One generation (the body of runACO's outer loop without the update):
    each ant builds and measures its tour, which is recorded and, when
    strictly shorter than the best so far, becomes the best.
   */
  method RunGeneration(cfg: Config, distances: array2<int>, pheromones: array2<real>,
                       weight: (real, int) -> real, rng: (nat, nat, nat) -> real, iter: nat,
                       best: Best)
    returns (next: Best, antTours: seq<AntTour>)
    requires SameSize(distances, pheromones) && distances.Length0 >= 1
    requires Uniform(rng)
    ensures |antTours| == cfg.ants
    ensures forall a | 0 <= a < |antTours| ::
      Walked(antTours[a], distances, pheromones, weight, Stream(rng, iter, a))
    ensures next == Track(best, antTours)
  {
    var bestTour, bestDistance := best.tour, best.distance;
    antTours := [];
    for ant := 0 to cfg.ants
      invariant |antTours| == ant
      invariant AllWalked(antTours, distances, pheromones, weight, rng, iter)
      invariant Best(bestTour, bestDistance) == Track(best, antTours)
    {
      var draw := Stream(rng, iter, ant);
      assert 0.0 <= draw(0) < 1.0 by { assert draw(0) == rng(iter, ant, 0); }
      var tour := BuildAntTour(distances, pheromones, weight, draw);
      var distance := CalculateTourDistance(tour, distances);
      var records := antTours + [AntTour(tour, distance)];
      WalkedExtends(antTours, AntTour(tour, distance), distances, pheromones, weight, rng, iter);
      assert records[..ant] == antTours;
      if Below(distance, bestDistance) {
        bestTour := tour;
        bestDistance := Finite(distance);
      }
      antTours := records;
    }
    next := Best(bestTour, bestDistance);
  }

  /** Ant `a` of generation `iter` walked `antTours[a]` with its own draws. */
  ghost predicate AllWalked(antTours: seq<AntTour>, d: array2<int>, p: array2<real>,
                            weight: (real, int) -> real, rng: (nat, nat, nat) -> real, iter: nat)
    reads d, p
    requires SameSize(d, p) && d.Length0 >= 1 && Uniform(rng)
  {
    forall a | 0 <= a < |antTours| :: Walked(antTours[a], d, p, weight, Stream(rng, iter, a))
  }

  /** One more ant, walked with the next ant's draws, keeps AllWalked. */
  lemma WalkedExtends(antTours: seq<AntTour>, rec: AntTour, d: array2<int>, p: array2<real>,
                      weight: (real, int) -> real, rng: (nat, nat, nat) -> real, iter: nat)
    requires SameSize(d, p) && d.Length0 >= 1 && Uniform(rng)
    requires AllWalked(antTours, d, p, weight, rng, iter)
    requires Walked(rec, d, p, weight, Stream(rng, iter, |antTours|))
    ensures AllWalked(antTours + [rec], d, p, weight, rng, iter)
  {
    var records := antTours + [rec];
    assert forall a | 0 <= a < |antTours| :: records[a] == antTours[a];
  }

  /** `rec` is a tour through every city together with its length. */
  ghost predicate Measured(rec: AntTour, d: array2<int>)
    reads d
    requires IsSquare(d, d.Length0)
  {
    IsPermutation(rec.tour, d.Length0) && rec.distance == TourLength(rec.tour, d)
  }

  /** Every field of `fields` is n-by-n. */
  ghost predicate AllSquare(fields: seq<array2<real>>, n: nat)
  {
    forall g | 0 <= g < |fields| :: IsSquare(fields[g], n)
  }

  /**
    Generation `iter` ran on the field `field`: its ants are `antTours`,
    each walked with its own draws and measured, and `updated` is the field
    that the update computes from `field` and those ants.
   */
  ghost predicate GenerationRan(cfg: Config, distances: array2<int>, weight: (real, int) -> real,
                                rng: (nat, nat, nat) -> real, iter: nat,
                                field: array2<real>, antTours: seq<AntTour>, updated: array2<real>)
    reads distances, field, updated
    requires IsSquare(distances, distances.Length0) && distances.Length0 >= 1 && Uniform(rng)
    requires IsSquare(field, distances.Length0) && IsSquare(updated, distances.Length0)
  {
    && |antTours| == cfg.ants
    && Depositable(antTours) && PositiveLengths(antTours)
    && (forall a | 0 <= a < |antTours| ::
          Walked(antTours[a], distances, field, weight, Stream(rng, iter, a)))
    && (forall i, j | 0 <= i < distances.Length0 && 0 <= j < distances.Length0 ::
          updated[i, j] == Evaporated(cfg, field[i, j]) + Deposit(cfg, antTours, i, j))
  }

  /**
    One pass of runACO's outer loop: a generation of ants on `pheromones`,
    then the field replaced by its update. Symmetry and (under
    KeepsTrails) positivity pass from the old field to the new one.
   */
  method Iterate(cfg: Config, distances: array2<int>, pheromones: array2<real>,
                 weight: (real, int) -> real, rng: (nat, nat, nat) -> real, iter: nat, best: Best)
    returns (next: Best, antTours: seq<AntTour>, updated: array2<real>)
    requires IsSquare(distances, distances.Length0) && distances.Length0 >= 2
    requires PositiveOffDiagonal(distances) && Uniform(rng)
    requires IsSquare(pheromones, distances.Length0)
    ensures IsSquare(updated, distances.Length0)
    ensures GenerationRan(cfg, distances, weight, rng, iter, pheromones, antTours, updated)
    ensures next == Track(best, antTours)
    ensures forall a | 0 <= a < |antTours| :: Measured(antTours[a], distances)
    ensures Symmetric(pheromones) ==> Symmetric(updated)
    ensures KeepsTrails(cfg) && AllPositive(pheromones) ==> AllPositive(updated)
  {
    next, antTours := RunGeneration(cfg, distances, pheromones, weight, rng, iter, best);
    forall a | 0 <= a < |antTours|
      ensures Measured(antTours[a], distances) && antTours[a].distance > 0
    {
      TourLengthPositive(antTours[a].tour, distances);
    }
    updated := UpdatePheromones(cfg, pheromones, antTours);
  }

  /**
    The record of a run so far: `fields[0]` is the field of 1s, generation
    `g` ran on `fields[g]` and produced `fields[g + 1]`, and every field is
    symmetric and, under KeepsTrails, positive.
   */
  ghost predicate History(cfg: Config, distances: array2<int>, weight: (real, int) -> real,
                          rng: (nat, nat, nat) -> real,
                          generations: seq<seq<AntTour>>, fields: seq<array2<real>>)
    reads distances, set g | 0 <= g < |fields| :: fields[g]
    requires IsSquare(distances, distances.Length0) && distances.Length0 >= 1 && Uniform(rng)
  {
    && |fields| == |generations| + 1
    && AllSquare(fields, distances.Length0)
    && (forall i, j | 0 <= i < distances.Length0 && 0 <= j < distances.Length0 :: fields[0][i, j] == 1.0)
    && (forall g | 0 <= g < |generations| ::
          GenerationRan(cfg, distances, weight, rng, g, fields[g], generations[g], fields[g + 1]))
    && (forall g | 0 <= g < |fields| :: Symmetric(fields[g]))
    && (KeepsTrails(cfg) ==> forall g | 0 <= g < |fields| :: AllPositive(fields[g]))
  }

  /** A generation that ran on the last field extends the record. */
  lemma HistoryExtends(cfg: Config, distances: array2<int>, weight: (real, int) -> real,
                       rng: (nat, nat, nat) -> real,
                       generations: seq<seq<AntTour>>, fields: seq<array2<real>>,
                       antTours: seq<AntTour>, updated: array2<real>)
    requires IsSquare(distances, distances.Length0) && distances.Length0 >= 1 && Uniform(rng)
    requires History(cfg, distances, weight, rng, generations, fields)
    requires IsSquare(updated, distances.Length0)
    requires GenerationRan(cfg, distances, weight, rng, |generations|, fields[|generations|], antTours, updated)
    requires Symmetric(updated)
    requires KeepsTrails(cfg) ==> AllPositive(updated)
    ensures History(cfg, distances, weight, rng, generations + [antTours], fields + [updated])
  {
    var gs, fs := generations + [antTours], fields + [updated];
    assert forall g | 0 <= g < |fields| :: fs[g] == fields[g];
    assert forall g | 0 <= g < |generations| :: gs[g] == generations[g];
  }

  /**
    runACO: starts from a field of 1s and no best tour; each generation
    runs its ants on the current field, then the field is replaced by its
    update, once per generation. The ghost results record the run (see
    History): `generations[g]` are the ants of generation `g`, which ran
    on `fields[g]`, and `fields[g + 1]` is its update; there are exactly
    ITERATIONS updates. The best returned is the first shortest of all the
    ants in the order they ran; after at least one ant it is a tour
    through every city together with its own length.
   */
  method RunACO(cfg: Config, distances: array2<int>, weight: (real, int) -> real, rng: (nat, nat, nat) -> real)
    returns (bestTour: seq<nat>, bestDistance: Bound,
             ghost generations: seq<seq<AntTour>>, ghost fields: seq<array2<real>>)
    requires IsSquare(distances, distances.Length0) && distances.Length0 >= 2
    requires PositiveOffDiagonal(distances)
    requires Uniform(rng)
    ensures |generations| == cfg.iterations && |fields| == cfg.iterations + 1
    ensures History(cfg, distances, weight, rng, generations, fields)
    ensures Best(bestTour, bestDistance) == Track(NoBest, Flatten(generations))
    ensures cfg.ants == 0 || cfg.iterations == 0 ==> bestTour == [] && bestDistance == Infinity
    ensures cfg.ants > 0 && cfg.iterations > 0 ==>
      IsPermutation(bestTour, distances.Length0) && bestDistance == Finite(TourLength(bestTour, distances))
  {
    var size := distances.Length0;
    var pheromones := new real[size, size]((_, _) => 1.0);
    var best := NoBest;
    generations, fields := [], [pheromones];
    for iter := 0 to cfg.iterations
      invariant |fields| == iter + 1 && fields[iter] == pheromones && IsSquare(pheromones, size)
      invariant RunSoFar(cfg, distances, weight, rng, generations, fields, best, iter)
    {
      var next, antTours, updated := Iterate(cfg, distances, pheromones, weight, rng, iter, best);
      RunExtends(cfg, distances, weight, rng, generations, fields, best, iter, next, antTours, updated);
      generations, fields := generations + [antTours], fields + [updated];
      pheromones, best := updated, next;
    }
    bestTour, bestDistance := best.tour, best.distance;
    if cfg.ants > 0 && cfg.iterations > 0 {
      BestIsMeasured(Flatten(generations), distances);
    }
  }

  /** The state of runACO after `iter` generations: their record, and the
      best of all their ants. */
  ghost predicate RunSoFar(cfg: Config, distances: array2<int>, weight: (real, int) -> real,
                           rng: (nat, nat, nat) -> real,
                           generations: seq<seq<AntTour>>, fields: seq<array2<real>>,
                           best: Best, iter: nat)
    reads distances, set g | 0 <= g < |fields| :: fields[g]
    requires IsSquare(distances, distances.Length0) && distances.Length0 >= 1 && Uniform(rng)
  {
    && |generations| == iter
    && History(cfg, distances, weight, rng, generations, fields)
    && best == Track(NoBest, Flatten(generations))
    && AllMeasured(cfg, Flatten(generations), distances, iter)
  }

  /** One pass of the outer loop, as Iterate describes it, advances the run. */
  lemma RunExtends(cfg: Config, distances: array2<int>, weight: (real, int) -> real,
                   rng: (nat, nat, nat) -> real,
                   generations: seq<seq<AntTour>>, fields: seq<array2<real>>, best: Best, iter: nat,
                   next: Best, antTours: seq<AntTour>, updated: array2<real>)
    requires IsSquare(distances, distances.Length0) && distances.Length0 >= 1 && Uniform(rng)
    requires RunSoFar(cfg, distances, weight, rng, generations, fields, best, iter)
    requires IsSquare(updated, distances.Length0)
    requires GenerationRan(cfg, distances, weight, rng, iter, fields[iter], antTours, updated)
    requires next == Track(best, antTours)
    requires forall a | 0 <= a < |antTours| :: Measured(antTours[a], distances)
    requires Symmetric(fields[iter]) ==> Symmetric(updated)
    requires KeepsTrails(cfg) && AllPositive(fields[iter]) ==> AllPositive(updated)
    ensures RunSoFar(cfg, distances, weight, rng, generations + [antTours], fields + [updated], next, iter + 1)
  {
    HistoryExtends(cfg, distances, weight, rng, generations, fields, antTours, updated);
    RecordsExtend(cfg, generations, antTours, distances, iter);
  }

  /** After `iter` generations of `cfg.ants` ants, the records are all
      measured, and there are some exactly when there were ants. */
  ghost predicate AllMeasured(cfg: Config, records: seq<AntTour>, distances: array2<int>, iter: nat)
    reads distances
    requires IsSquare(distances, distances.Length0)
  {
    && (forall r | r in records :: Measured(r, distances))
    && (cfg.ants > 0 && iter > 0 ==> records != [])
    && (cfg.ants == 0 ==> records == [])
  }

  /** Appending a generation of measured ants to measured records keeps
      them measured and offers the new ants to the running best. */
  lemma RecordsExtend(cfg: Config, generations: seq<seq<AntTour>>, antTours: seq<AntTour>,
                      distances: array2<int>, iter: nat)
    requires IsSquare(distances, distances.Length0) && |antTours| == cfg.ants
    requires AllMeasured(cfg, Flatten(generations), distances, iter)
    requires forall a | 0 <= a < |antTours| :: Measured(antTours[a], distances)
    ensures Flatten(generations + [antTours]) == Flatten(generations) + antTours
    ensures Track(NoBest, Flatten(generations + [antTours])) == Track(Track(NoBest, Flatten(generations)), antTours)
    ensures AllMeasured(cfg, Flatten(generations + [antTours]), distances, iter + 1)
  {
    FlattenAppend(generations, antTours);
    TrackAppend(NoBest, Flatten(generations), antTours);
  }

  /** After a non-empty run of measured ants, the best is one of their
      tours with its own length. */
  lemma BestIsMeasured(records: seq<AntTour>, distances: array2<int>)
    requires IsSquare(distances, distances.Length0)
    requires records != [] && forall r | r in records :: Measured(r, distances)
    ensures IsPermutation(Track(NoBest, records).tour, distances.Length0)
    ensures Track(NoBest, records).distance == Finite(TourLength(Track(NoBest, records).tour, distances))
  {
    var k := TrackFirstMinimum(records);
    assert records[k] in records;
  }

  lemma {:induction false} FlattenAppend(generations: seq<seq<AntTour>>, g: seq<AntTour>)
    ensures Flatten(generations + [g]) == Flatten(generations) + g
  {
    assert (generations + [g])[..|generations|] == generations;
  }

  /** Offering `xs` and then `ys` is offering `xs + ys`. */
  lemma {:induction false} TrackAppend(best: Best, xs: seq<AntTour>, ys: seq<AntTour>)
    ensures Track(best, xs + ys) == Track(Track(best, xs), ys)
  {
    if ys == [] {
      assert xs + ys == xs;
    } else {
      var init := ys[..|ys| - 1];
      TrackAppend(best, xs, init);
      assert (xs + ys)[..|xs + ys| - 1] == xs + init;
    }
  }

  /** The best never gets worse than what it started from. */
  lemma {:induction false} TrackImproves(best: Best, records: seq<AntTour>)
    ensures AtMost(Track(best, records).distance, best.distance)
  {
    if records != [] {
      TrackImproves(best, records[..|records| - 1]);
    }
  }

  /** bestDistance never increases: after more ants it is at most what it
      was after fewer. */
  lemma TrackNeverIncreases(best: Best, records: seq<AntTour>, i: nat, j: nat)
    requires i <= j <= |records|
    ensures AtMost(Track(best, records[..j]).distance, Track(best, records[..i]).distance)
  {
    assert records[..j] == records[..i] + records[i..j];
    TrackAppend(best, records[..i], records[i..j]);
    TrackImproves(Track(best, records[..i]), records[i..j]);
  }

  /**
    From the start state, the best after a non-empty run of ants is the
    tour and length of the first ant whose length is the minimum: no ant
    is shorter, every earlier ant is strictly longer (ties keep the
    earlier tour).
   */
  lemma {:induction false} TrackFirstMinimum(records: seq<AntTour>) returns (k: nat)
    requires records != []
    ensures k < |records|
    ensures Track(NoBest, records) == Best(records[k].tour, Finite(records[k].distance))
    ensures forall j | 0 <= j < |records| :: records[k].distance <= records[j].distance
    ensures forall j | 0 <= j < k :: records[k].distance < records[j].distance
  {
    var init := records[..|records| - 1];
    var last := records[|records| - 1];
    if init == [] {
      k := 0;
    } else {
      var k' := TrackFirstMinimum(init);
      assert forall j | 0 <= j < |init| :: records[j] == init[j];
      if last.distance < init[k'].distance {
        k := |records| - 1;
      } else {
        k := k';
      }
    }
  }
}
