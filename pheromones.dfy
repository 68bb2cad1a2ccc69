/**
  The pheromone update after a generation of ants (updatePheromones): the
  field is copied, every entry evaporates, and each ant lays
  `PHEROMONE_DEPOSIT / length` on both directions of every edge of its
  closed tour.
 */
module Pheromones {
  import opened Tours
  import opened Matrices
  import opened Settings
  import opened Reals

  /** A finished ant: its tour and the tour's length. */
  datatype AntTour = AntTour(tour: seq<nat>, distance: int)

  /** An entry after evaporation. */
  function Evaporated(cfg: Config, x: real): real
  {
    x * (1.0 - cfg.evaporation)
  }

  /** What one ant lays on each edge it walks: `PHEROMONE_DEPOSIT / length`. */
  function Share(cfg: Config, distance: int): real
    requires distance != 0
  {
    cfg.pheromoneDeposit / distance as real
  }

  /** What edge `m` of the closed tour `t`, from `t[m]` to the city after
      it, lays on the cell `[x, y]`: `share` for each of its two directions
      that is that cell (both, when the two cities coincide). */
  function EdgeShare(t: seq<nat>, m: nat, share: real, x: nat, y: nat): real
    requires m < |t|
  {
    var s := Succ(t, m);
    (if t[m] == x && t[s] == y then share else 0.0)
    + (if t[s] == x && t[m] == y then share else 0.0)
  }

  /** The pheromone the first `k` edges of the closed tour `t` lay on the
      cell `[x, y]`. */
  function TourDeposit(t: seq<nat>, k: nat, share: real, x: nat, y: nat): real
    requires k <= |t|
  {
    if k == 0 then 0.0 else TourDeposit(t, k - 1, share, x, y) + EdgeShare(t, k - 1, share, x, y)
  }

  /** Every ant tour is non-empty and its length can divide the deposit. */
  predicate Depositable(tours: seq<AntTour>)
  {
    forall a | 0 <= a < |tours| :: |tours[a].tour| >= 1 && tours[a].distance != 0
  }

  /** The pheromone all the ants of `tours` lay on the cell `[x, y]`. */
  function Deposit(cfg: Config, tours: seq<AntTour>, x: nat, y: nat): real
    requires Depositable(tours)
  {
    if tours == [] then 0.0
    else
      var last := tours[|tours| - 1];
      Deposit(cfg, tours[..|tours| - 1], x, y)
      + TourDeposit(last.tour, |last.tour|, Share(cfg, last.distance), x, y)
  }

  /** Edge `m` of the closed tour `t`, walked either way, joins `x` and `y`. */
  ghost predicate WalksEdge(t: seq<nat>, m: nat, x: nat, y: nat)
    requires m < |t|
  {
    (t[m] == x && t[Succ(t, m)] == y) || (t[Succ(t, m)] == x && t[m] == y)
  }

  /** One of the first `k` edges of the closed tour `t` joins `x` and `y`. */
  ghost predicate WalksWithin(t: seq<nat>, k: nat, x: nat, y: nat)
    requires k <= |t|
  {
    exists m | 0 <= m < k :: WalksEdge(t, m, x, y)
  }

  /** Some edge of the closed tour `t`, the closing one included, joins `x` and `y`. */
  ghost predicate Traverses(t: seq<nat>, x: nat, y: nat)
  {
    WalksWithin(t, |t|, x, y)
  }

  /** Every ant tour of `tours` has a positive length. */
  predicate PositiveLengths(tours: seq<AntTour>)
  {
    forall a | 0 <= a < |tours| :: tours[a].distance > 0
  }

  /**
    updatePheromones: copies the field, evaporates every entry, then lets
    each ant in turn lay its share on both directions of each edge of its
    tour. Entry `[i, j]` of the result is the evaporated old entry plus
    what the ants lay on it; the old field is left as it was. The symmetry
    of the field and, when evaporation keeps part of every trail and every
    tour has positive length, its positivity are preserved. (The distance
    table the source also passes in is not used.)
   */
  method UpdatePheromones(cfg: Config, pheromones: array2<real>, antTours: seq<AntTour>)
    returns (updated: array2<real>)
    requires IsSquare(pheromones, pheromones.Length0)
    requires Depositable(antTours)
    requires forall a | 0 <= a < |antTours| :: InRange(antTours[a].tour, pheromones.Length0)
    ensures IsSquare(updated, pheromones.Length0)
    ensures forall i, j | 0 <= i < pheromones.Length0 && 0 <= j < pheromones.Length0 ::
      updated[i, j] == Evaporated(cfg, pheromones[i, j]) + Deposit(cfg, antTours, i, j)
    ensures Symmetric(pheromones) ==> Symmetric(updated)
    ensures AllPositive(pheromones) && KeepsTrails(cfg) && PositiveLengths(antTours) ==> AllPositive(updated)
  {
    updated := CopyField(pheromones);
    Evaporate(cfg, updated);
    for a := 0 to |antTours|
      invariant forall x, y | 0 <= x < pheromones.Length0 && 0 <= y < pheromones.Length0 ::
        updated[x, y] == Evaporated(cfg, pheromones[x, y]) + Deposit(cfg, antTours[..a], x, y)
    {
      DepositTour(updated, antTours[a].tour, Share(cfg, antTours[a].distance));
      assert antTours[..a + 1][..a] == antTours[..a];
    }
    assert antTours[..|antTours|] == antTours;
    UpdateKeepsSymmetry(cfg, pheromones, antTours, updated);
    UpdateKeepsPositive(cfg, pheromones, antTours, updated);
  }

  /** A field that is the evaporated symmetric field plus the deposits is
      symmetric. */
  lemma UpdateKeepsSymmetry(cfg: Config, pheromones: array2<real>, antTours: seq<AntTour>, updated: array2<real>)
    requires IsSquare(pheromones, pheromones.Length0) && IsSquare(updated, pheromones.Length0)
    requires Depositable(antTours)
    requires forall i, j | 0 <= i < pheromones.Length0 && 0 <= j < pheromones.Length0 ::
      updated[i, j] == Evaporated(cfg, pheromones[i, j]) + Deposit(cfg, antTours, i, j)
    ensures Symmetric(pheromones) ==> Symmetric(updated)
  {
    forall i, j | 0 <= i < pheromones.Length0 && 0 <= j < pheromones.Length0
      ensures Deposit(cfg, antTours, i, j) == Deposit(cfg, antTours, j, i)
    {
      DepositSymmetric(cfg, antTours, i, j);
    }
  }

  /** A field that is the evaporated positive field plus non-negative
      deposits is positive. */
  lemma UpdateKeepsPositive(cfg: Config, pheromones: array2<real>, antTours: seq<AntTour>, updated: array2<real>)
    requires IsSquare(pheromones, pheromones.Length0) && IsSquare(updated, pheromones.Length0)
    requires Depositable(antTours)
    requires forall i, j | 0 <= i < pheromones.Length0 && 0 <= j < pheromones.Length0 ::
      updated[i, j] == Evaporated(cfg, pheromones[i, j]) + Deposit(cfg, antTours, i, j)
    ensures AllPositive(pheromones) && KeepsTrails(cfg) && PositiveLengths(antTours) ==> AllPositive(updated)
  {
    if AllPositive(pheromones) && KeepsTrails(cfg) && PositiveLengths(antTours) {
      forall i, j | 0 <= i < pheromones.Length0 && 0 <= j < pheromones.Length0
        ensures updated[i, j] > 0.0
      {
        ProductPositive(pheromones[i, j], 1.0 - cfg.evaporation);
        DepositNonNegative(cfg, antTours, i, j);
      }
    }
  }

  /** Each edge lays as much on `[x, y]` as on `[y, x]`. */
  lemma {:induction false} TourDepositSymmetric(t: seq<nat>, k: nat, share: real, x: nat, y: nat)
    requires k <= |t|
    ensures TourDeposit(t, k, share, x, y) == TourDeposit(t, k, share, y, x)
  {
    if k > 0 {
      TourDepositSymmetric(t, k - 1, share, x, y);
    }
  }

  /** The ants lay as much on `[x, y]` as on `[y, x]`. */
  lemma {:induction false} DepositSymmetric(cfg: Config, tours: seq<AntTour>, x: nat, y: nat)
    requires Depositable(tours)
    ensures Deposit(cfg, tours, x, y) == Deposit(cfg, tours, y, x)
  {
    if tours != [] {
      var last := tours[|tours| - 1];
      DepositSymmetric(cfg, tours[..|tours| - 1], x, y);
      TourDepositSymmetric(last.tour, |last.tour|, Share(cfg, last.distance), x, y);
    }
  }

  /**
    With a positive share, the first `k` edges of a tour lay a
    non-negative amount on `[x, y]`, and a positive one exactly when one
    of them joins `x` and `y`.
   */
  lemma {:induction false} TourDepositPositive(t: seq<nat>, k: nat, share: real, x: nat, y: nat)
    requires k <= |t| && share > 0.0
    ensures TourDeposit(t, k, share, x, y) >= 0.0
    ensures TourDeposit(t, k, share, x, y) > 0.0 <==> WalksWithin(t, k, x, y)
  {
    if k > 0 {
      TourDepositPositive(t, k - 1, share, x, y);
      if WalksWithin(t, k - 1, x, y) {
        var m :| 0 <= m < k - 1 && WalksEdge(t, m, x, y);
        assert 0 <= m < k && WalksEdge(t, m, x, y);
      }
      if WalksEdge(t, k - 1, x, y) {
        assert 0 <= k - 1 < k && WalksEdge(t, k - 1, x, y);
      }
      if WalksWithin(t, k, x, y) {
        var m :| 0 <= m < k && WalksEdge(t, m, x, y);
        if m < k - 1 {
          assert 0 <= m < k - 1 && WalksEdge(t, m, x, y);
        }
      }
    }
  }

  /** A cell no edge among the first `k` joins gets nothing from them,
      whatever the share. */
  lemma {:induction false} TourDepositUntouched(t: seq<nat>, k: nat, share: real, x: nat, y: nat)
    requires k <= |t| && !WalksWithin(t, k, x, y)
    ensures TourDeposit(t, k, share, x, y) == 0.0
  {
    if k > 0 {
      assert forall m | 0 <= m < k :: !WalksEdge(t, m, x, y);
      assert !WalksEdge(t, k - 1, x, y);
      TourDepositUntouched(t, k - 1, share, x, y);
    }
  }

  /** With a non-negative deposit and positive tour lengths, every share is
      non-negative and so is what the ants lay on any cell. */
  lemma {:induction false} DepositNonNegative(cfg: Config, tours: seq<AntTour>, x: nat, y: nat)
    requires Depositable(tours) && PositiveLengths(tours) && cfg.pheromoneDeposit >= 0.0
    ensures Deposit(cfg, tours, x, y) >= 0.0
  {
    if tours != [] {
      var last := tours[|tours| - 1];
      DepositNonNegative(cfg, tours[..|tours| - 1], x, y);
      QuotientNonNegative(cfg.pheromoneDeposit, last.distance as real);
      TourDepositNonNegative(last.tour, |last.tour|, Share(cfg, last.distance), x, y);
    }
  }

  lemma {:induction false} TourDepositNonNegative(t: seq<nat>, k: nat, share: real, x: nat, y: nat)
    requires k <= |t| && share >= 0.0
    ensures TourDeposit(t, k, share, x, y) >= 0.0
  {
    if k > 0 {
      TourDepositNonNegative(t, k - 1, share, x, y);
    }
  }

  /**
    With a positive deposit and positive tour lengths, the ants lay
    something on `[x, y]` exactly when one of their tours walks the edge
    between `x` and `y`; a cell on no tour edge only evaporates.
   */
  lemma {:induction false} DepositPositiveIffTraversed(cfg: Config, tours: seq<AntTour>, x: nat, y: nat)
    requires Depositable(tours) && PositiveLengths(tours) && cfg.pheromoneDeposit > 0.0
    ensures Deposit(cfg, tours, x, y) > 0.0 <==> exists a | 0 <= a < |tours| :: Traverses(tours[a].tour, x, y)
  {
    if tours != [] {
      var init, last := tours[..|tours| - 1], tours[|tours| - 1];
      DepositPositiveIffTraversed(cfg, init, x, y);
      DepositNonNegative(cfg, init, x, y);
      TourDepositPositive(last.tour, |last.tour|, Share(cfg, last.distance), x, y);
      if exists a | 0 <= a < |init| :: Traverses(init[a].tour, x, y) {
        var a :| 0 <= a < |init| && Traverses(init[a].tour, x, y);
        assert tours[a] == init[a];
      }
      if a :| 0 <= a < |tours| && Traverses(tours[a].tour, x, y) {
        if a < |init| {
          assert init[a] == tours[a];
        }
      }
    }
  }

  /** Entries on no tour edge are only evaporated. */
  lemma {:induction false} DepositUntouched(cfg: Config, tours: seq<AntTour>, x: nat, y: nat)
    requires Depositable(tours)
    requires forall a | 0 <= a < |tours| :: !Traverses(tours[a].tour, x, y)
    ensures Deposit(cfg, tours, x, y) == 0.0
  {
    if tours != [] {
      var last := tours[|tours| - 1];
      DepositUntouched(cfg, tours[..|tours| - 1], x, y);
      TourDepositUntouched(last.tour, |last.tour|, Share(cfg, last.distance), x, y);
    }
  }


  /** The new field: the copy of `pheromones` (pheromones.map(row => [...row])). */
  method CopyField(pheromones: array2<real>) returns (copy: array2<real>)
    ensures fresh(copy)
    ensures copy.Length0 == pheromones.Length0 && copy.Length1 == pheromones.Length1
    ensures forall i, j | 0 <= i < copy.Length0 && 0 <= j < copy.Length1 :: copy[i, j] == pheromones[i, j]
  {
    copy := new real[pheromones.Length0, pheromones.Length1];
    for i := 0 to pheromones.Length0
      invariant forall a, b | 0 <= a < i && 0 <= b < copy.Length1 :: copy[a, b] == pheromones[a, b]
    {
      for j := 0 to pheromones.Length1
        invariant forall a, b | 0 <= a < copy.Length0 && 0 <= b < copy.Length1 ::
          (a < i || (a == i && b < j)) ==> copy[a, b] == pheromones[a, b]
      {
        copy[i, j] := pheromones[i, j];
      }
    }
  }

  /** The evaporation pass: every entry is multiplied by `1 - EVAPORATION`. */
  method Evaporate(cfg: Config, field: array2<real>)
    modifies field
    ensures forall i, j | 0 <= i < field.Length0 && 0 <= j < field.Length1 ::
      field[i, j] == Evaporated(cfg, old(field[i, j]))
  {
    for i := 0 to field.Length0
      invariant forall a, b | 0 <= a < field.Length0 && 0 <= b < field.Length1 ::
        field[a, b] == if a < i then Evaporated(cfg, old(field[a, b])) else old(field[a, b])
    {
      for j := 0 to field.Length1
        invariant forall a, b | 0 <= a < field.Length0 && 0 <= b < field.Length1 ::
          field[a, b] == if a < i || (a == i && b < j) then Evaporated(cfg, old(field[a, b])) else old(field[a, b])
      {
        field[i, j] := Evaporated(cfg, field[i, j]);
      }
    }
  }

  /** One ant's deposit: `share` on both directions of each path edge
      `t[k] -> t[k+1]`, then of the closing edge `t[last] -> t[0]`. */
  method DepositTour(field: array2<real>, t: seq<nat>, share: real)
    requires IsSquare(field, field.Length0) && InRange(t, field.Length0) && |t| >= 1
    modifies field
    ensures forall x, y | 0 <= x < field.Length0 && 0 <= y < field.Length0 ::
      field[x, y] == old(field[x, y]) + TourDeposit(t, |t|, share, x, y)
  {
    for k := 0 to |t| - 1
      invariant forall x, y | 0 <= x < field.Length0 && 0 <= y < field.Length0 ::
        field[x, y] == old(field[x, y]) + TourDeposit(t, k, share, x, y)
    {
      LayEdge(field, t, k, share);
    }
    LayEdge(field, t, |t| - 1, share);
  }

  /** Adds `share` to both directions of edge `k` of the closed tour `t`. */
  method LayEdge(field: array2<real>, t: seq<nat>, k: nat, share: real)
    requires IsSquare(field, field.Length0) && InRange(t, field.Length0) && k < |t|
    modifies field
    ensures forall x, y | 0 <= x < field.Length0 && 0 <= y < field.Length0 ::
      field[x, y] == old(field[x, y]) + EdgeShare(t, k, share, x, y)
  {
    var from, to := t[k], t[Succ(t, k)];
    field[from, to] := field[from, to] + share;
    field[to, from] := field[to, from] + share;
  }
}
