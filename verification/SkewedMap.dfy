/**
 A four by four map on which inflation is not exact: the cell in the corner has its nearest
 obstacle on the diagonal, but both neighbours towards it are claimed by other obstacles.
 */
module SkewedMap {
  import opened Grid
  import opened Wavefront
  import opened WavefrontEnd
  import opened CostValues
  import opened InflationCost
  import opened InflationSpec

  const SKEWED := Problem(4, 4, 3, {Cell(1, 1), Cell(3, 0), Cell(0, 3)})

  /** A cell two moves from obstacle `t`, with every other obstacle farther, is settled by `t`. */
  lemma TwoMovesFromSource(g: Problem, owner: Owners, t: Cell, a: Cell, b: Cell, m: Cell, x: Cell)
    requires Final(g, owner) && g.radius >= 2 && t in g.sources
    requires forall s <- g.sources :: s == t || s == a || s == b
    requires InGrid(g.w, g.h, m) && InGrid(g.w, g.h, x) && Adjacent(t, m) && Adjacent(m, x)
    requires D2(m, t) == 1 && D2(x, t) == 4
    requires D2(m, a) > 1 && D2(x, a) > 4 && D2(m, b) > 1 && D2(x, b) > 4
    ensures x in owner && owner[x] == t
  {
    hide Norm, Final;
    assert 4 <= g.radius * g.radius;
    SettledWithinRadius(g, owner, t);
    NeighbourGainsNothing(g, owner, t, m);
    SettledWithinRadius(g, owner, m);
    NeighbourGainsNothing(g, owner, m, x);
    SettledWithinRadius(g, owner, x);
  }

  lemma NormIs(x: int, y: int, n: nat)
    requires x * x + y * y == n
    ensures Norm(x, y) == n
  {
  }

  lemma SkewedDistances()
    ensures D2(Cell(3, 1), Cell(3, 0)) == 1
    ensures D2(Cell(3, 2), Cell(3, 0)) == 4
    ensures D2(Cell(3, 1), Cell(1, 1)) == 4
    ensures D2(Cell(3, 2), Cell(1, 1)) == 5
    ensures D2(Cell(3, 1), Cell(0, 3)) == 13
    ensures D2(Cell(3, 2), Cell(0, 3)) == 10
    ensures D2(Cell(1, 3), Cell(0, 3)) == 1
    ensures D2(Cell(2, 3), Cell(0, 3)) == 4
    ensures D2(Cell(1, 3), Cell(1, 1)) == 4
    ensures D2(Cell(2, 3), Cell(1, 1)) == 5
    ensures D2(Cell(1, 3), Cell(3, 0)) == 13
    ensures D2(Cell(2, 3), Cell(3, 0)) == 10
    ensures D2(Cell(3, 3), Cell(1, 1)) == 8
    ensures D2(Cell(3, 3), Cell(3, 0)) == 9
    ensures D2(Cell(3, 3), Cell(0, 3)) == 9
    ensures D2(Cell(4, 3), Cell(1, 1)) == 13
    ensures D2(Cell(3, 4), Cell(1, 1)) == 13
  {
    hide Norm;
    NormIs(-2, 3, 13);
    NormIs(-1, 3, 10);
    NormIs(0, 1, 1);
    NormIs(0, 2, 4);
    NormIs(0, 3, 9);
    NormIs(1, 0, 1);
    NormIs(1, 2, 5);
    NormIs(2, 0, 4);
    NormIs(2, 1, 5);
    NormIs(2, 2, 8);
    NormIs(2, 3, 13);
    NormIs(3, -2, 13);
    NormIs(3, -1, 10);
    NormIs(3, 0, 9);
    NormIs(3, 2, 13);
  }

  lemma BelowTheCell(g: Problem, owner: Owners)
    requires Final(g, owner) && g == SKEWED
    ensures Cell(3, 2) in owner && owner[Cell(3, 2)] == Cell(3, 0)
  {
    hide Norm, Final;
    SkewedDistances();
    var m, x, t, a, b := Cell(3, 1), Cell(3, 2), Cell(3, 0), Cell(1, 1), Cell(0, 3);
    TwoMovesFromSource(g, owner, t, a, b, m, x);
  }

  lemma BesideTheCell(g: Problem, owner: Owners)
    requires Final(g, owner) && g == SKEWED
    ensures Cell(2, 3) in owner && owner[Cell(2, 3)] == Cell(0, 3)
  {
    hide Norm, Final;
    SkewedDistances();
    var m, x, t, a, b := Cell(1, 3), Cell(2, 3), Cell(0, 3), Cell(1, 1), Cell(3, 0);
    TwoMovesFromSource(g, owner, t, a, b, m, x);
  }

  /** In this map every run gives cell (3,3) an obstacle 3 away, though another is nearer. */
  lemma NotAlwaysNearest(g: Problem, owner: Owners)
    requires Final(g, owner) && g == SKEWED
    ensures Cell(3, 3) in owner && Dist(owner, Cell(3, 3)) == 9
    ensures Cell(1, 1) in g.sources && D2(Cell(3, 3), Cell(1, 1)) == 8
  {
    hide Norm, Final;
    SkewedDistances();
    BelowTheCell(g, owner);
    BesideTheCell(g, owner);
    NeighbourGainsNothing(g, owner, Cell(3, 2), Cell(3, 3));
    SettledWithinRadius(g, owner, Cell(3, 3));
    NotFromTheDiagonal(g, owner);
  }

  lemma NotFromTheDiagonal(g: Problem, owner: Owners)
    requires Cell(3, 2) in owner && owner[Cell(3, 2)] != Cell(1, 1)
    requires Cell(2, 3) in owner && owner[Cell(2, 3)] != Cell(1, 1)
    ensures !HasCloserParent(owner, Entry(Cell(3, 3), Cell(1, 1)))
  {
    hide Norm;
    SkewedDistances();
    forall p | p in owner && Adjacent(p, Cell(3, 3)) && owner[p] == Cell(1, 1)
      ensures D2(p, Cell(1, 1)) > 8
    {
      assert p == Cell(4, 3) || p == Cell(3, 4);
    }
  }

  lemma SkewedDifferences(y: Cell)
    ensures D2(y, Cell(1, 1)) - D2(y, Cell(3, 0)) == 4 * y.x - 2 * y.y - 7
    ensures D2(y, Cell(1, 1)) - D2(y, Cell(0, 3)) == 4 * y.y - 2 * y.x - 7
  {
    var u, v := y.x, y.y;
    assert (u - 1) * (u - 1) == u * u - 2 * u + 1 && (v - 1) * (v - 1) == v * v - 2 * v + 1;
    assert (u - 3) * (u - 3) == u * u - 6 * u + 9 && (v - 3) * (v - 3) == v * v - 6 * v + 9;
  }

  /** No cell of the map has two nearest obstacles, so that exactness is decided by the obstacles alone. */
  lemma SkewedNoTies(y: Cell, s: Cell, t: Cell)
    requires InGrid(4, 4, y) && Nearest(SKEWED, y, s) && Nearest(SKEWED, y, t)
    ensures s == t
  {
    hide Norm;
    var a, b, c := Cell(1, 1), Cell(3, 0), Cell(0, 3);
    SkewedDifferences(y);
    assert a in SKEWED.sources && b in SKEWED.sources && c in SKEWED.sources;
  }

  lemma NotExact(g: Problem, owner: Owners)
    requires Final(g, owner) && g == SKEWED
    ensures !Exact(g, owner) && NoTies(g) && !AllShare(g)
  {
    hide Norm, Final;
    NotAlwaysNearest(g, owner);
    var y, s := Cell(3, 3), Cell(1, 1);
    assert 8 <= g.radius * g.radius;
    assert g.Reaches(y, s);
    assert Covered(g, y);
    forall y, s, t | Covered(g, y) && Nearest(g, y, s) && Nearest(g, y, t)
      ensures s == t
    {
      SkewedNoTies(y, s, t);
    }
    ExactIff(g, owner);
  }

  ghost predicate Skewed(cfg: Config, m: Raster, box: Box, c: Cell, s: Cell)
    requires m.Valid()
  {
    ProblemOf(cfg, m, box) == SKEWED && c == Cell(3, 3) && s == Cell(1, 1) && box.Contains(c)
  }

  /** A costmap with these obstacles: the corner gets the cost of distance 3 with an obstacle at the root of 8. */
  lemma CheaperThanNearest(cfg: Config, m: Raster, box: Box, m': Raster, c: Cell, s: Cell) returns (t: Cell)
    requires m.SameShape(m') && cfg.costs.Valid() && m.Has(c) && m.Has(s) && m.At(c) == FREE_SPACE
    requires Skewed(cfg, m, box, c, s) && Inflated(cfg, m, box, m')
    ensures m'.At(c) == cfg.costs.Cost(D2(c, t))
    ensures D2(c, t) == 9 && cfg.IsObstacle(m.At(s)) && D2(c, s) == 8
  {
    hide Norm, Final, Owner, CostModel.Cost, CostModel.Valid;
    OwnerFinal(cfg, m, box);
    NotAlwaysNearest(SKEWED, Owner(cfg, m, box));
    assert s in Sources(cfg, m, box);
    assert m'.At(c) == CellAfter(cfg, Owner(cfg, m, box), m, box, c);
    t := Owner(cfg, m, box)[c];
  }
}
