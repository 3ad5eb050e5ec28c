/** Cells of a costmap, their 4-neighbourhood and their squared Euclidean distances. */
module Grid {

  datatype Cell = Cell(x: int, y: int)

  /** Squared length of an offset. */
  function Norm(x: int, y: int): nat {
    SquareNonNegative(x);
    SquareNonNegative(y);
    x * x + y * y
  }

  /** Squared distance between two cells, in cells. */
  function D2(a: Cell, b: Cell): nat {
    Norm(a.x - b.x, a.y - b.y)
  }

  function Max(a: int, b: int): int {
    if a < b then b else a
  }

  function Min(a: int, b: int): int {
    if a < b then a else b
  }

  function Abs(n: int): nat {
    if n < 0 then -n else n
  }

  /** Number of 4-neighbour moves between two cells. */
  function Manhattan(a: Cell, b: Cell): nat {
    Abs(a.x - b.x) + Abs(a.y - b.y)
  }

  predicate Adjacent(a: Cell, b: Cell) {
    Manhattan(a, b) == 1
  }

  predicate InGrid(w: int, h: int, c: Cell) {
    0 <= c.x < w && 0 <= c.y < h
  }

  function Cells(w: nat, h: nat): (s: set<Cell>)
    ensures forall c :: c in s <==> InGrid(w, h, c)
  {
    set x, y | 0 <= x < w && 0 <= y < h :: Cell(x, y)
  }

  /** Row-major position of column `x` of row `y` in a buffer of rows of `w` elements. */
  function Index(w: nat, x: int, y: int): int {
    y * w + x
  }

  lemma SquareNonNegative(n: int)
    ensures 0 <= n * n
  {
  }

  lemma IndexInRange(w: nat, h: nat, x: int, y: int)
    requires 0 <= x < w && 0 <= y < h
    ensures 0 <= Index(w, x, y) < w * h
  {
    assert y * w <= (h - 1) * w;
  }

  lemma IndexNeighbours(w: nat, x: int, y: int)
    ensures Index(w, x - 1, y) == Index(w, x, y) - 1 && Index(w, x + 1, y) == Index(w, x, y) + 1
    ensures Index(w, x, y - 1) == Index(w, x, y) - w && Index(w, x, y + 1) == Index(w, x, y) + w
  {
    assert (y - 1) * w == y * w - w && (y + 1) * w == y * w + w;
  }

  lemma RowsInOrder(w: nat, x: int, y: int, x': int, y': int)
    requires 0 <= x < w && 0 <= x' < w
    ensures y < y' ==> Index(w, x, y) < Index(w, x', y')
  {
    if y < y' {
      assert (y + 1) * w <= y' * w;
    }
  }

  lemma IndexInjective(w: nat, x: int, y: int, x': int, y': int)
    requires 0 <= x < w && 0 <= x' < w
    ensures Index(w, x, y) == Index(w, x', y') <==> x == x' && y == y'
  {
    RowsInOrder(w, x, y, x', y');
    RowsInOrder(w, x', y', x, y);
  }

  lemma D2Zero(a: Cell, b: Cell)
    ensures D2(a, b) == 0 <==> a == b
  {
    SquareNonNegative(a.x - b.x);
    SquareNonNegative(a.y - b.y);
    if a.x != b.x {
      assert (a.x - b.x) * (a.x - b.x) > 0;
    }
    if a.y != b.y {
      assert (a.y - b.y) * (a.y - b.y) > 0;
    }
  }

  lemma SquareOfNext(u: int, e: int)
    requires e == 1 || e == -1
    ensures (u + e) * (u + e) == u * u + 2 * (e * u) + 1
  {
  }

  /** Moving by one along an axis changes the squared length by an odd amount. */
  lemma NextNeverEqual(u: int, e: int, v: int)
    requires e == 1 || e == -1
    ensures Norm(u + e, v) != Norm(u, v) && Norm(v, u + e) != Norm(v, u)
  {
    SquareOfNext(u, e);
    var d := e * u;
    assert 2 * d + 1 != 0;
  }

  /** A 4-neighbour is never at the same distance. */
  lemma NeighbourNeverEquidistant(a: Cell, b: Cell, s: Cell)
    requires Adjacent(a, b)
    ensures D2(a, s) != D2(b, s)
  {
    hide Norm;
    if a.y == b.y {
      NextNeverEqual(a.x - s.x, b.x - a.x, a.y - s.y);
    } else {
      NextNeverEqual(a.y - s.y, b.y - a.y, a.x - s.x);
    }
  }

  lemma SquareLess(m: nat, n: nat)
    ensures m < n <==> m * m < n * n
  {
    if m < n {
      assert m * m <= m * n < n * n;
    } else {
      assert n * n <= n * m <= m * m;
    }
  }

  lemma NearerAlongAxis(a: int, b: int, c: int)
    requires Abs(a) < Abs(b)
    ensures Norm(a, c) < Norm(b, c) && Norm(c, a) < Norm(c, b)
  {
    assert Abs(a) * Abs(a) == a * a && Abs(b) * Abs(b) == b * b;
    SquareLess(Abs(a), Abs(b));
  }

  lemma AbsBound(v: int, n: nat)
    ensures v * v <= n * n <==> Abs(v) <= n
  {
    assert Abs(v) * Abs(v) == v * v;
    SquareLess(n, Abs(v));
  }

  /** A cell within squared distance n*n lies within n columns and n rows. */
  lemma WithinBox(a: Cell, b: Cell, n: nat)
    requires D2(a, b) <= n * n
    ensures Abs(a.x - b.x) <= n && Abs(a.y - b.y) <= n
  {
    SquareNonNegative(a.x - b.x);
    SquareNonNegative(a.y - b.y);
    AbsBound(a.x - b.x, n);
    AbsBound(a.y - b.y, n);
  }

  lemma StepSquare(u: int, e: int, m: nat)
    requires (e == 1 || e == -1) && Abs(u) <= m
    ensures (u + e) * (u + e) <= u * u + 2 * m + 1
  {
    SquareOfNext(u, e);
  }

  /** One move away from `a` cannot leave the circle one cell wider. */
  lemma NeighbourWithin(a: Cell, b: Cell, s: Cell, m: nat)
    requires Adjacent(a, b) && D2(a, s) <= m * m
    ensures D2(b, s) <= (m + 1) * (m + 1)
  {
    WithinBox(a, s, m);
    assert (m + 1) * (m + 1) == m * m + 2 * m + 1;
    if b.x != a.x {
      StepSquare(a.x - s.x, b.x - a.x, m);
      assert b.x - s.x == (a.x - s.x) + (b.x - a.x);
    } else {
      StepSquare(a.y - s.y, b.y - a.y, m);
      assert b.y - s.y == (a.y - s.y) + (b.y - a.y);
    }
  }
}
