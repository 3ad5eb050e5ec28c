/** `generateIntegerDistances`: a table from cell offsets to the rank of their length. */
module LevelTable {
  import opened Grid
  import opened DistanceRank

  predicate InDisc(r: nat, p: Cell) {
    Norm(p.x, p.y) <= r * r
  }

  predicate InSquare(r: nat, p: Cell) {
    Abs(p.x) <= r && Abs(p.y) <= r
  }

  // ---------------------------------------------------------------- sorting by length

  ghost predicate SortedByNorm(s: seq<Cell>) {
    forall i, j | 0 <= i < j < |s| :: Norm(s[i].x, s[i].y) <= Norm(s[j].x, s[j].y)
  }

  function Insert(p: Cell, s: seq<Cell>): (t: seq<Cell>)
    ensures multiset(t) == multiset(s) + multiset{p}
  {
    if s == [] then [p]
    else if Norm(p.x, p.y) <= Norm(s[0].x, s[0].y) then [p] + s
    else
      assert s == [s[0]] + s[1..];
      [s[0]] + Insert(p, s[1..])
  }

  /** Stands for the library sort; only the order by length and the contents matter below. */
  function SortByNorm(s: seq<Cell>): (t: seq<Cell>)
    ensures multiset(t) == multiset(s)
  {
    if s == [] then []
    else
      assert s == [s[0]] + s[1..];
      Insert(s[0], SortByNorm(s[1..]))
  }

  lemma {:induction false} InsertSorted(p: Cell, s: seq<Cell>)
    requires SortedByNorm(s)
    ensures SortedByNorm(Insert(p, s))
  {
    hide Norm;
    if s != [] && Norm(p.x, p.y) > Norm(s[0].x, s[0].y) {
      InsertSorted(p, s[1..]);
      var t := Insert(p, s[1..]);
      forall j | 0 <= j < |t|
        ensures Norm(s[0].x, s[0].y) <= Norm(t[j].x, t[j].y)
      {
        assert t[j] in multiset(t);
        assert t[j] == p || t[j] in s[1..];
      }
    }
  }

  lemma {:induction false} SortSorts(s: seq<Cell>)
    ensures SortedByNorm(SortByNorm(s))
  {
    hide Norm;
    if s != [] {
      SortSorts(s[1..]);
      InsertSorted(s[0], SortByNorm(s[1..]));
    }
  }

  // ---------------------------------------------------------------- the table

  ghost predicate IsSquareTable(r: nat, table: seq<seq<int>>) {
    |table| == 2 * r + 1 && forall row <- table :: |row| == 2 * r + 1
  }

  function At(r: nat, table: seq<seq<int>>, p: Cell): int
    requires IsSquareTable(r, table) && InSquare(r, p)
  {
    table[p.x + r][p.y + r]
  }

  function Put(r: nat, table: seq<seq<int>>, p: Cell, v: int): (t: seq<seq<int>>)
    requires IsSquareTable(r, table) && InSquare(r, p)
    ensures IsSquareTable(r, t)
    ensures forall q | InSquare(r, q) :: At(r, t, q) == if q == p then v else At(r, table, q)
  {
    table[p.x + r := table[p.x + r][p.y + r := v]]
  }

  lemma DiscInSquare(r: nat, p: Cell)
    requires InDisc(r, p)
    ensures InSquare(r, p)
  {
    WithinBox(p, Cell(0, 0), r);
  }

  lemma NormOf(x: int, y: int)
    ensures Norm(x, y) == x * x + y * y
  {
  }

  /** The points of the disc before column `x` of row `y`, in the order of the two loops. */
  ghost predicate Scanned(r: nat, x: int, y: int, p: Cell) {
    InDisc(r, p) && (p.y < y || (p.y == y && p.x < x))
  }

  /** The disc of radius `r`, row by row. */
  method DiscPoints(r: nat) returns (points: seq<Cell>)
    ensures forall p :: p in points <==> InDisc(r, p)
  {
    hide Norm;
    forall p | InDisc(r, p)
      ensures InSquare(r, p)
    {
      DiscInSquare(r, p);
    }
    var low: int := r;
    low := -low;
    points := [];
    var y := low;
    while y <= r
      invariant low <= y <= r + 1
      invariant forall p :: p in points <==> Scanned(r, low, y, p)
    {
      var x := low;
      while x <= r
        invariant low <= x <= r + 1
        invariant forall p :: p in points <==> Scanned(r, x, y, p)
      {
        NormOf(x, y);
        if x * x + y * y <= r * r {
          points := points + [Cell(x, y)];
        }
        x := x + 1;
        assert forall p :: Scanned(r, x, y, p) <==> Scanned(r, x - 1, y, p) || (p == Cell(x - 1, y) && InDisc(r, p));
      }
      y := y + 1;
    }
  }

  /** Between the lengths of two consecutive points of the sorted disc no other length occurs. */
  lemma ConsecutiveLengths(r: nat, sorted: seq<Cell>, n: nat, last: Cell)
    requires SortedByNorm(sorted) && forall p :: p in sorted <==> InDisc(r, p)
    requires n < |sorted| && last == if n == 0 then Cell(0, 0) else sorted[n - 1]
    ensures var a, b := Norm(last.x, last.y), Norm(sorted[n].x, sorted[n].y);
            a <= b && Rank(b) == Rank(a) + (if a == b then 0 else 1)
  {
    hide Norm;
    var a, b := Norm(last.x, last.y), Norm(sorted[n].x, sorted[n].y);
    var o := Cell(0, 0);
    NormIsDistance(o);
    NormIsDistance(last);
    D2Zero(o, o);
    assert InDisc(r, o);
    var z :| 0 <= z < |sorted| && sorted[z] == o;
    assert n == 0 ==> b == 0;
    if a != b {
      assert sorted[n] in sorted;
      forall k: nat | a < k < b
        ensures !IsSquaredDistance(k)
      {
        forall q: Cell
          ensures !HasLength(q, k)
        {
          NormIsDistance(q);
          if InDisc(r, q) {
            var i :| 0 <= i < |sorted| && sorted[i] == q;
          }
        }
      }
      RankNext(a, b);
    }
  }

  lemma NormIsDistance(p: Cell)
    ensures Norm(p.x, p.y) == D2(p, Cell(0, 0)) && IsSquaredDistance(Norm(p.x, p.y))
  {
    D2IsSquaredDistance(p, Cell(0, 0));
  }

  /** The longest point of the sorted disc has length `r`. */
  lemma LastIsRadius(r: nat, sorted: seq<Cell>)
    requires SortedByNorm(sorted) && forall p :: p in sorted <==> InDisc(r, p)
    ensures |sorted| > 0 && var p := sorted[|sorted| - 1]; Norm(p.x, p.y) == r * r
  {
    assert Norm(r, 0) == r * r;
    hide Norm;
    var q := Cell(r, 0);
    assert q in sorted;
    var i :| 0 <= i < |sorted| && sorted[i] == q;
    assert sorted[|sorted| - 1] in sorted;
  }

  ghost predicate RanksDisc(r: nat, table: seq<seq<int>>) {
    IsSquareTable(r, table) && forall p | InSquare(r, p) && InDisc(r, p) :: At(r, table, p) == Rank(Norm(p.x, p.y))
  }

  ghost predicate RanksFirst(r: nat, table: seq<seq<int>>, sorted: seq<Cell>, n: nat)
    requires n <= |sorted|
  {
    IsSquareTable(r, table) &&
    forall i | 0 <= i < n :: InSquare(r, sorted[i]) &&
                             At(r, table, sorted[i]) == Rank(Norm(sorted[i].x, sorted[i].y))
  }

  lemma PutRanksNext(r: nat, table: seq<seq<int>>, sorted: seq<Cell>, n: nat)
    requires n < |sorted| && RanksFirst(r, table, sorted, n) && InSquare(r, sorted[n])
    ensures RanksFirst(r, Put(r, table, sorted[n], Rank(Norm(sorted[n].x, sorted[n].y))), sorted, n + 1)
  {
    hide Norm, Rank;
  }

  method SortedDisc(r: nat) returns (sorted: seq<Cell>)
    ensures SortedByNorm(sorted) && forall p :: p in sorted <==> InDisc(r, p)
  {
    hide Norm;
    var points := DiscPoints(r);
    sorted := SortByNorm(points);
    SortSorts(points);
    forall p
      ensures p in sorted <==> InDisc(r, p)
    {
      assert p in sorted <==> p in multiset(sorted);
      assert p in points <==> p in multiset(points);
    }
  }

  /** Every offset in the disc two cells wider than the inflation radius gets the rank of its length. */
  method GenerateIntegerDistances(cellInflationRadius: nat) returns (level: nat, table: seq<seq<int>>)
    ensures var r := cellInflationRadius + 2; RanksDisc(r, table) && level == Rank(r * r)
  {
    hide Norm, Rank, SortedByNorm;
    var r := cellInflationRadius + 2;
    var size := r * 2 + 1;
    var sorted := SortedDisc(r);
    table := seq(size, _ => seq(size, _ => 0));
    var last := Cell(0, 0);
    level := 0;
    OriginRank();
    var n := 0;
    while n < |sorted|
      invariant 0 <= n <= |sorted|
      invariant RanksFirst(r, table, sorted, n)
      invariant last == if n == 0 then Cell(0, 0) else sorted[n - 1]
      invariant level == Rank(Norm(last.x, last.y))
    {
      var p := sorted[n];
      assert p in sorted;
      DiscInSquare(r, p);
      ConsecutiveLengths(r, sorted, n, last);
      NormOf(p.x, p.y);
      NormOf(last.x, last.y);
      if p.x * p.x + p.y * p.y != last.x * last.x + last.y * last.y {
        level := level + 1;
      }
      PutRanksNext(r, table, sorted, n);
      table := Put(r, table, p, level);
      last := p;
      n := n + 1;
    }
    LastIsRadius(r, sorted);
    forall p | InDisc(r, p) && InSquare(r, p)
      ensures At(r, table, p) == Rank(Norm(p.x, p.y))
    {
      assert p in sorted;
    }
  }

  lemma OriginRank()
    ensures Rank(Norm(0, 0)) == 0
  {
  }

  /** The table orders offsets as their lengths do, and every level up to the last is in use. */
  lemma LevelsOrderOffsets(r: nat, table: seq<seq<int>>, p: Cell, q: Cell)
    requires RanksDisc(r, table)
    requires InSquare(r, p) && InDisc(r, p) && InSquare(r, q) && InDisc(r, q)
    ensures At(r, table, p) < At(r, table, q) <==> Norm(p.x, p.y) < Norm(q.x, q.y)
    ensures At(r, table, p) == 0 <==> p == Cell(0, 0)
    ensures 0 <= At(r, table, p) <= Rank(r * r)
  {
    hide Norm;
    var o := Cell(0, 0);
    NormIsDistance(p);
    NormIsDistance(q);
    NormIsDistance(o);
    D2Zero(p, o);
    D2Zero(o, o);
    RankOrder(p, o, q, o);
    RankOrder(p, o, o, o);
    RankMonotone(Norm(p.x, p.y), r * r);
  }

  /** No level is skipped. */
  lemma {:induction false} EveryLevelUsed(r: nat, table: seq<seq<int>>, n: nat, v: nat) returns (p: Cell)
    requires RanksDisc(r, table) && n <= r * r && v < Rank(n)
    ensures InSquare(r, p) && InDisc(r, p) && At(r, table, p) == v
    decreases n
  {
    hide Norm;
    if v < Rank(n - 1) {
      p := EveryLevelUsed(r, table, n - 1, v);
    } else {
      p :| HasLength(p, n - 1);
      NormIsDistance(p);
      DiscInSquare(r, p);
    }
  }
}
