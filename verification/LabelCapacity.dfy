/** How many labels a scan can need, against how many `maxLabels` provides. */
module LabelCapacity {
  import opened Grid
  import opened PixelGraph
  import opened ScanLabels

  /** `maxLabels`, with the label 0 counted. */
  function MaxLabels(rows: nat, columns: nat, way: Connectivity): (n: nat)
    ensures n >= 2
    ensures way.Way4? ==> 2 * (n - 2) <= rows * columns < 2 * (n - 1)
    ensures way.Way8? ==> 3 * (n - 2) <= rows * columns < 3 * (n - 1)
  {
    (if way.Way4? then rows * columns / 2 + 1 else rows * columns / 3 + 1) + 1
  }

  lemma {:induction false} InjectionBound<T>(s: set<T>, f: T -> int, n: nat)
    requires forall c <- s :: 0 <= f(c) < n
    requires forall c, d | c in s && d in s && f(c) == f(d) :: c == d
    ensures |s| <= n
  {
    if n == 0 {
      assert s == {};
    } else if c :| c in s && f(c) == n - 1 {
      InjectionBound(s - {c}, f, n - 1);
    } else {
      InjectionBound(s, f, n - 1);
    }
  }

  /** Two pixels that each start a label do not touch. */
  lemma CreatorsApart(way: Connectivity, obs: set<Cell>, p: Cell, q: Cell)
    requires p in Creators(way, obs) && q in Creators(way, obs)
    ensures !Linked(way, p, q)
  {
    assert p == q || Before(p, q) || Before(q, p);
    LinkedSymmetric(way, p, q);
  }

  // ---------------------------------------------------------------- 8-linked: one creator per 2 x 2 block

  function Block(columns: nat, c: Cell): int {
    Index((columns + 1) / 2, c.x / 2, c.y / 2)
  }

  lemma AtMostOnePerBlock(rows: nat, columns: nat, obs: set<Cell>)
    requires forall c <- obs :: InGrid(columns, rows, c)
    ensures |Creators(Way8, obs)| <= (columns + 1) / 2 * ((rows + 1) / 2)
  {
    hide Index;
    var w, h := (columns + 1) / 2, (rows + 1) / 2;
    var s := Creators(Way8, obs);
    forall c | c in s
      ensures 0 <= Block(columns, c) < w * h
    {
      IndexInRange(w, h, c.x / 2, c.y / 2);
    }
    forall c, d | c in s && d in s && Block(columns, c) == Block(columns, d)
      ensures c == d
    {
      IndexInjective(w, c.x / 2, c.y / 2, d.x / 2, d.y / 2);
      CreatorsApart(Way8, obs, c, d);
    }
    InjectionBound(s, c => Block(columns, c), w * h);
  }

  // ---------------------------------------------------------------- 4-linked: one creator per two steps of a snake

  /** Position along the path that runs through the image row by row, turning at the ends. */
  function Snake(columns: nat, c: Cell): int {
    Index(columns, if c.y % 2 == 0 then c.x else columns - 1 - c.x, c.y)
  }

  lemma SnakeIsPath(rows: nat, columns: nat, c: Cell, d: Cell)
    requires InGrid(columns, rows, c) && InGrid(columns, rows, d) && Snake(columns, d) == Snake(columns, c) + 1
    ensures Linked(Way4, c, d)
  {
    hide Index;
    var u, v := if c.y % 2 == 0 then c.x else columns - 1 - c.x, if d.y % 2 == 0 then d.x else columns - 1 - d.x;
    IndexNeighbours(columns, u, c.y);
    if u + 1 < columns {
      IndexInjective(columns, u + 1, c.y, v, d.y);
    } else {
      NextRowStart(columns, c.y);
      IndexInjective(columns, 0, c.y + 1, v, d.y);
    }
  }

  lemma NextRowStart(w: nat, y: int)
    ensures Index(w, w, y) == Index(w, 0, y + 1)
  {
    assert (y + 1) * w == y * w + w;
  }

  lemma AtMostOnePerPair(rows: nat, columns: nat, obs: set<Cell>)
    requires forall c <- obs :: InGrid(columns, rows, c)
    ensures |Creators(Way4, obs)| <= (rows * columns + 1) / 2
  {
    hide Index;
    var s, n := Creators(Way4, obs), (rows * columns + 1) / 2;
    forall c | c in s
      ensures 0 <= Snake(columns, c) < rows * columns
    {
      IndexInRange(columns, rows, if c.y % 2 == 0 then c.x else columns - 1 - c.x, c.y);
    }
    forall c, d | c in s && d in s && Snake(columns, c) / 2 == Snake(columns, d) / 2
      ensures c == d
    {
      OneOfPair(rows, columns, obs, c, d);
    }
    InjectionBound(s, c => Snake(columns, c) / 2, n);
  }

  lemma OneOfPair(rows: nat, columns: nat, obs: set<Cell>, c: Cell, d: Cell)
    requires forall c <- obs :: InGrid(columns, rows, c)
    requires c in Creators(Way4, obs) && d in Creators(Way4, obs) && Snake(columns, c) / 2 == Snake(columns, d) / 2
    ensures c == d
  {
    hide Index, Linked;
    CreatorsApart(Way4, obs, c, d);
    CreatorsApart(Way4, obs, d, c);
    if Snake(columns, d) == Snake(columns, c) + 1 {
      SnakeIsPath(rows, columns, c, d);
    } else if Snake(columns, c) == Snake(columns, d) + 1 {
      SnakeIsPath(rows, columns, d, c);
    } else {
      IndexInjective(columns, if c.y % 2 == 0 then c.x else columns - 1 - c.x, c.y,
                     if d.y % 2 == 0 then d.x else columns - 1 - d.x, d.y);
    }
  }

  // ---------------------------------------------------------------- does the capacity suffice?

  function Blocks(rows: nat, columns: nat): nat {
    (columns + 1) / 2 * ((rows + 1) / 2)
  }

  lemma OddBlocks(a: int, b: int)
    requires a >= 2 && b >= 2
    ensures (2 * a - 1) * (2 * b - 1) + 3 >= 3 * (a * b)
  {
    assert (2 * a - 1) * (2 * b - 1) == 4 * (a * b) - 2 * a - 2 * b + 1;
    assert (a - 2) * (b - 2) == a * b - 2 * a - 2 * b + 4;
    assert 0 <= (a - 2) * (b - 2);
  }

  lemma ProductsInOrder(a: nat, b: nat, c: nat, d: nat)
    requires a <= c && b <= d
    ensures a * b <= c * d
  {
    assert a * b <= c * b <= c * d;
  }

  /** For two rows and two columns at least, a third of the pixels is enough. */
  lemma BlocksFit(rows: nat, columns: nat)
    requires rows >= 2 && columns >= 2
    ensures Blocks(rows, columns) < MaxLabels(rows, columns, Way8)
  {
    var a, b := (rows + 1) / 2, (columns + 1) / 2;
    if a == 1 {
      assert Blocks(2, columns) == b;
    } else if b == 1 {
      assert Blocks(rows, 2) == a;
    } else {
      OddBlocks(a, b);
      ProductsInOrder(2 * a - 1, 2 * b - 1, rows, columns);
      assert Blocks(rows, columns) == a * b;
    }
  }

  /** The labels never run out in a 4-linked image, nor in an 8-linked one with a label per block. */
  lemma CapacitySuffices(way: Connectivity, rows: nat, columns: nat, obs: set<Cell>)
    requires forall c <- obs :: InGrid(columns, rows, c)
    requires way.Way4? || Blocks(rows, columns) < MaxLabels(rows, columns, Way8)
    ensures |Creators(way, obs)| < MaxLabels(rows, columns, way)
  {
    if way.Way4? {
      AtMostOnePerPair(rows, columns, obs);
    } else {
      AtMostOnePerBlock(rows, columns, obs);
    }
  }

  /** The densest image without touching obstacles: every other pixel of every other row. */
  function Lattice(w: nat, h: nat): set<Cell> {
    set c | c in Cells(w, h) :: Cell(2 * c.x, 2 * c.y)
  }

  function LatticeLine(w: nat, y: int): set<Cell> {
    set x: int | 0 <= x < w :: Cell(2 * x, y)
  }

  lemma LineGrows(w: nat, y: int)
    ensures w == 0 ==> LatticeLine(w, y) == {} && forall h :: Lattice(h, w) == {}
    ensures w > 0 ==> LatticeLine(w, y) == LatticeLine(w - 1, y) + {Cell(2 * (w - 1), y)}
    ensures w > 0 ==> Cell(2 * (w - 1), y) !in LatticeLine(w - 1, y)
  {
  }

  lemma {:induction false} LineSize(w: nat, y: int)
    ensures |LatticeLine(w, y)| == w
  {
    hide LatticeLine;
    LineGrows(w, y);
    if w > 0 {
      LineSize(w - 1, y);
    }
  }

  lemma {:induction false} LatticeSize(w: nat, h: nat)
    ensures |Lattice(w, h)| == w * h
  {
    hide Lattice, LatticeLine;
    if h == 0 {
      LineGrows(h, h);
    } else {
      LatticeSize(w, h - 1);
      LineSize(w, 2 * (h - 1));
      LatticeRow(w, h, LatticeLine(w, 2 * (h - 1)));
      assert w * h == w * (h - 1) + w;
    }
  }

  lemma LatticeRow(w: nat, h: nat, row: set<Cell>)
    requires h > 0 && row == LatticeLine(w, 2 * (h - 1))
    ensures Lattice(w, h) == Lattice(w, h - 1) + row && Lattice(w, h - 1) !! row
  {
    forall c
      ensures c in Lattice(w, h) <==> c in Lattice(w, h - 1) || c in row
    {
      if c in Lattice(w, h) {
        var d :| d in Cells(w, h) && c == Cell(2 * d.x, 2 * d.y);
        if d.y < h - 1 {
          assert d in Cells(w, h - 1);
        }
      }
      if c in Lattice(w, h - 1) {
        var d :| d in Cells(w, h - 1) && c == Cell(2 * d.x, 2 * d.y);
        assert d in Cells(w, h);
      }
      if c in row {
        var x :| 0 <= x < w && c == Cell(2 * x, 2 * (h - 1));
        assert Cell(x, h - 1) in Cells(w, h);
      }
    }
  }

  lemma LatticeAllCreate(w: nat, h: nat)
    ensures Creators(Way8, Lattice(w, h)) == Lattice(w, h)
  {
  }

  /** Some 8-linked image of a given size runs out of labels iff the size has more blocks than labels. */
  lemma OverflowPossible(rows: nat, columns: nat)
    ensures (exists obs: set<Cell> :: (forall c <- obs :: InGrid(columns, rows, c)) &&
                                      |Creators(Way8, obs)| >= MaxLabels(rows, columns, Way8))
            <==> Blocks(rows, columns) >= MaxLabels(rows, columns, Way8)
  {
    if Blocks(rows, columns) >= MaxLabels(rows, columns, Way8) {
      var w, h := (columns + 1) / 2, (rows + 1) / 2;
      var obs := Lattice(w, h);
      LatticeSize(w, h);
      LatticeAllCreate(w, h);
      assert forall c <- obs :: InGrid(columns, rows, c);
    } else {
      forall obs: set<Cell> | forall c <- obs :: InGrid(columns, rows, c)
        ensures |Creators(Way8, obs)| < MaxLabels(rows, columns, Way8)
      {
        CapacitySuffices(Way8, rows, columns, obs);
      }
    }
  }

  /** That happens in single rows (or columns) only: of five pixels, and of seven or more. */
  lemma ThinImagesOverflow(n: nat)
    ensures Blocks(1, n) >= MaxLabels(1, n, Way8) <==> n == 5 || n >= 7
    ensures Blocks(n, 1) >= MaxLabels(n, 1, Way8) <==> n == 5 || n >= 7
  {
  }
}
