/**
 A nine by nine map on which a cell at distance exactly the radius from an obstacle is not inflated at all:
 both neighbours towards that obstacle belong to obstacles that do not reach the cell.
 */
module GapMap {
  import opened Grid
  import opened Wavefront
  import opened WavefrontEnd
  import opened Coverage

  const NEAR := Cell(2, 1)
  const LEFT := Cell(0, 6)
  const BELOW := Cell(6, 0)
  const GAP := Problem(9, 9, 5, {NEAR, LEFT, BELOW})

  lemma Distances(x: int, y: int)
    ensures var c := Cell(x, y);
            && D2(c, NEAR) == (x - 2) * (x - 2) + (y - 1) * (y - 1)
            && D2(c, LEFT) == x * x + (y - 6) * (y - 6)
            && D2(c, BELOW) == (x - 6) * (x - 6) + y * y
  {
  }

  lemma SmallSquares(i: int)
    requires 0 <= i <= 4
    ensures i * i <= 16 && i * i < 16 + (i - 1) * (i - 1)
  {
    assert i == 0 || i == 1 || i == 2 || i == 3 || i == 4;
  }

  /** Obstacle `s` is the only nearest one of `c`, and reaches it. */
  ghost predicate Sole(c: Cell, s: Cell) {
    && InGrid(9, 9, c) && s in GAP.sources && D2(c, s) <= 25
    && forall t <- GAP.sources :: t == s || D2(c, s) < D2(c, t)
  }

  lemma SoleNearest(c: Cell, s: Cell)
    requires Sole(c, s)
    ensures Covered(GAP, c) && forall t :: Nearest(GAP, c, t) <==> t == s
  {
    hide Norm;
    assert GAP.Reaches(c, s);
  }

  lemma Passes(y: Cell, p: Cell, s: Cell)
    requires Sole(y, s) && Sole(p, s) && Adjacent(p, y) && D2(p, s) < D2(y, s)
    ensures InheritsFrom(GAP, y, p)
  {
    hide Norm, Sole;
    SoleNearest(y, s);
    SoleNearest(p, s);
    InMap(p, s);
  }

  lemma InMap(c: Cell, s: Cell)
    requires Sole(c, s)
    ensures InGrid(GAP.w, GAP.h, c)
  {
  }

  lemma LeftRow(i: nat)
    requires i <= 4
    ensures Sole(Cell(i, 6), LEFT) && D2(Cell(i, 6), LEFT) == i * i
  {
    hide Norm;
    Distances(i, 6);
    SmallSquares(i);
  }

  lemma BelowColumn(j: nat)
    requires j <= 4
    ensures Sole(Cell(6, j), BELOW) && D2(Cell(6, j), BELOW) == j * j
  {
    hide Norm;
    Distances(6, j);
    SmallSquares(j);
  }

  lemma Ends()
    ensures Sole(Cell(4, 5), LEFT) && D2(Cell(4, 5), LEFT) == 17
    ensures Sole(Cell(5, 4), BELOW) && D2(Cell(5, 4), BELOW) == 17
  {
    hide Norm;
    var four, five := 4, 5;
    Distances(four, five);
    Distances(five, four);
  }

  /** The cells along which the two farther obstacles reach the neighbours of the gap. */
  ghost function Arms(): set<Cell> {
    (set i: nat | i <= 4 :: Cell(i, 6)) + (set j: nat | j <= 4 :: Cell(6, j)) + {Cell(4, 5), Cell(5, 4)}
  }

  lemma NextSquare(i: nat)
    ensures i * i < (i + 1) * (i + 1)
  {
  }

  lemma ArmGrounded(y: Cell)
    requires y in Arms()
    ensures Grounded(GAP, Arms(), y)
  {
    hide Norm, Sole, InheritsFrom, Covered;
    Ends();
    var four: nat := 4;
    if y == Cell(4, 5) {
      LeftRow(four);
      SoleNearest(y, LEFT);
      Passes(y, Cell(4, 6), LEFT);
      assert Cell(4, 6) in Arms();
    } else if y == Cell(5, 4) {
      BelowColumn(four);
      SoleNearest(y, BELOW);
      Passes(y, Cell(6, 4), BELOW);
      assert Cell(6, 4) in Arms();
    } else if y.y == 6 {
      LeftRow(y.x);
      SoleNearest(y, LEFT);
      if y.x > 0 {
        LeftRow(y.x - 1);
        NextSquare(y.x - 1);
        Passes(y, Cell(y.x - 1, 6), LEFT);
        assert Cell(y.x - 1, 6) in Arms();
      }
    } else {
      BelowColumn(y.y);
      SoleNearest(y, BELOW);
      if y.y > 0 {
        BelowColumn(y.y - 1);
        NextSquare(y.y - 1);
        Passes(y, Cell(6, y.y - 1), BELOW);
        assert Cell(6, y.y - 1) in Arms();
      }
    }
  }

  lemma Reach(c: Cell, s: Cell)
    ensures GAP.Reaches(c, s) <==> D2(c, s) <= 25
  {
  }

  /** No obstacle that may settle a neighbour of the gap reaches the gap. */
  lemma NothingOffered(c: Cell, p: Cell, t: Cell)
    requires c == Cell(5, 5)
    ensures !OfferedBy(GAP, Arms(), c, p, t)
  {
    hide Norm, Sole, Nearest;
    Ends();
    SoleNearest(Cell(4, 5), LEFT);
    SoleNearest(Cell(5, 4), BELOW);
    Distances(c.x, c.y);
    Distances(p.x, p.y);
    Reach(c, t);
    Reach(p, t);
    assert Cell(4, 5) in Arms() && Cell(5, 4) in Arms();
    assert Adjacent(p, c) ==> p == Cell(4, 5) || p == Cell(5, 4) || p == Cell(6, 5) || p == Cell(5, 6);
  }

  /** Every run leaves the cell alone, although an obstacle is within the radius. */
  lemma CoveredNotSettled(g: Problem, owner: Owners, c: Cell)
    requires Final(g, owner) && g == GAP && c == Cell(5, 5)
    ensures Covered(g, c) && c !in owner
  {
    hide Norm, Final, Arms, OfferedBy, Grounded;
    Distances(c.x, c.y);
    Reach(c, NEAR);
    assert NEAR in g.sources && InGrid(g.w, g.h, c);
    forall y | y in Arms()
      ensures Grounded(g, Arms(), y)
    {
      ArmGrounded(y);
    }
    forall p, t
      ensures !OfferedBy(g, Arms(), c, p, t)
    {
      NothingOffered(c, p, t);
    }
    if c in owner {
      SettledOnlyIfOffered(g, owner, Arms(), c);
    }
  }
}
