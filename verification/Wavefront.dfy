/**
 The wavefront that inflation grows from obstacle cells, without its data structures:
 which cells are settled, with which source, and which entries are still waiting.
 Everything here is about one step of the sweep, and about the state it ends in.
 */
module Wavefront {
  import opened Grid
  import opened DistanceRank

  /** A queued cell together with the obstacle cell it would inherit its cost from. */
  datatype Entry = Entry(cell: Cell, src: Cell)

  /** One inflation: the map's size, the inflation radius in cells, the obstacle cells. */
  datatype Problem = Problem(w: nat, h: nat, radius: nat, sources: set<Cell>) {
    ghost predicate Valid() {
      forall s <- sources :: InGrid(w, h, s)
    }

    predicate Reaches(c: Cell, s: Cell) {
      D2(c, s) <= radius * radius
    }
  }

  type Owners = map<Cell, Cell>

  function Dist(owner: Owners, c: Cell): nat
    requires c in owner
  {
    D2(c, owner[c])
  }

  ghost predicate HasParent(owner: Owners, e: Entry) {
    exists p :: p in owner && Adjacent(p, e.cell) && owner[p] == e.src
  }

  ghost predicate HasCloserParent(owner: Owners, e: Entry) {
    exists p :: p in owner && Adjacent(p, e.cell) && owner[p] == e.src && D2(p, e.src) < D2(e.cell, e.src)
  }

  /** A waiting entry lies within the radius of its source, not below the swept bin. */
  ghost predicate EntryOk(g: Problem, owner: Owners, k: nat, e: Entry) {
    && InGrid(g.w, g.h, e.cell)
    && e.src in g.sources
    && g.Reaches(e.cell, e.src)
    && k <= Rank(D2(e.cell, e.src))
    && (e.cell == e.src || HasParent(owner, e))
  }

  /** A settled cell lies within the radius of its owner, not above the swept bin. */
  ghost predicate SettledOk(g: Problem, owner: Owners, k: nat, x: Cell)
    requires x in owner
  {
    && InGrid(g.w, g.h, x)
    && owner[x] in g.sources
    && g.Reaches(x, owner[x])
    && Rank(Dist(owner, x)) <= k
    && (x == owner[x] || HasCloserParent(owner, Entry(x, owner[x])))
  }

  /** `y` is at least as well off as it would be with its neighbour `x`'s owner. */
  ghost predicate NoBetterFrom(g: Problem, owner: Owners, pending: set<Entry>, x: Cell, y: Cell)
    requires x in owner
  {
    if y in owner then Dist(owner, y) <= D2(y, owner[x])
    else g.Reaches(y, owner[x]) ==> Entry(y, owner[x]) in pending
  }

  ghost predicate EntriesOk(g: Problem, owner: Owners, pending: set<Entry>, k: nat) {
    forall e {:trigger EntryOk(g, owner, k, e)} | e in pending :: EntryOk(g, owner, k, e)
  }

  ghost predicate AllSettledOk(g: Problem, owner: Owners, k: nat) {
    forall x {:trigger SettledOk(g, owner, k, x)} | x in owner :: SettledOk(g, owner, k, x)
  }

  ghost predicate LocallyOptimal(g: Problem, owner: Owners, pending: set<Entry>) {
    forall x, y {:trigger NoBetterFrom(g, owner, pending, x, y)} |
      x in owner && InGrid(g.w, g.h, y) && Adjacent(x, y) :: NoBetterFrom(g, owner, pending, x, y)
  }

  /** The wavefront has no holes: towards its source every settled cell is surrounded by settled cells. */
  ghost predicate CloserSettled(g: Problem, owner: Owners) {
    forall x, y {:trigger Adjacent(x, y)} |
      x in owner && InGrid(g.w, g.h, y) && Adjacent(x, y) && D2(y, owner[x]) < Dist(owner, x) :: y in owner
  }

  ghost predicate SourcesKept(g: Problem, owner: Owners, pending: set<Entry>) {
    forall s <- g.sources :: if s in owner then owner[s] == s else Entry(s, s) in pending
  }

  /** What every step of the sweep keeps. */
  ghost predicate Inv(g: Problem, owner: Owners, pending: set<Entry>, k: nat) {
    && g.Valid()
    && EntriesOk(g, owner, pending, k)
    && AllSettledOk(g, owner, k)
    && LocallyOptimal(g, owner, pending)
    && CloserSettled(g, owner)
    && SourcesKept(g, owner, pending)
  }

  // ---------------------------------------------------------------- geometry

  lemma Mirrored(x: int, y: int, e: int, f: int)
    requires (e == 1 || e == -1) && (f == 1 || f == -1)
    ensures Norm(e * x, f * y) == Norm(x, y)
  {
    assert (e * x) * (e * x) == x * x;
    assert (f * y) * (f * y) == y * y;
  }

  /** `|x-t|^2 - |x-s|^2` is linear in x; its signs at two corners of a unit square decide a third. */
  lemma CornerSigns(a: int, b: int, m: int, n: int)
    requires a >= 1 && b >= 1
    requires Norm(a - 1 + m, b - 1 + n) <= Norm(a - 1, b - 1)
    requires Norm(a - 1, b) <= Norm(a - 1 + m, b + n)
    ensures Norm(a + m, b - 1 + n) <= Norm(a, b - 1)
  {
    var f := 2 * ((a - 1) * m) + m * m + 2 * ((b - 1) * n) + n * n;
    assert f <= 0;
    assert f + 2 * n >= 0;
    assert n >= 0;
    assert 0 <= (b - 1) * n;
    assert m > 0 ==> 0 <= (a - 1) * m && m * m > 0;
    assert m <= 0;
  }

  lemma SignDistributes(e: int, u: int, i: int)
    requires e == 1 || e == -1
    ensures e * (u + i - e) == e * u - 1 + e * i
    ensures e * (u - e) == e * u - 1
    ensures e * (u + i) == e * u + e * i
  {
  }

  /** `CornerSigns` in any orientation: `e` and `f` are the unit steps along the two axes. */
  lemma OrientedCornerSigns(u: int, v: int, i: int, j: int, e: int, f: int)
    requires (e == 1 || e == -1) && (f == 1 || f == -1)
    requires e * u >= 1 && f * v >= 1
    requires Norm(u + i - e, v + j - f) <= Norm(u - e, v - f)
    requires Norm(u - e, v) <= Norm(u + i - e, v + j)
    ensures Norm(u + i, v + j - f) <= Norm(u, v - f)
  {
    hide Norm;
    var a, b, m, n := e * u, f * v, e * i, f * j;
    SignDistributes(e, u, i);
    SignDistributes(f, v, j);
    Mirrored(u + i - e, v + j - f, e, f);
    Mirrored(u - e, v - f, e, f);
    Mirrored(u - e, v, e, f);
    Mirrored(u + i - e, v + j, e, f);
    Mirrored(u + i, v + j - f, e, f);
    Mirrored(u, v - f, e, f);
    CornerSigns(a, b, m, n);
  }

  /** `OrientedCornerSigns` for cells, with `p` beside `c` and `q` above or below it. */
  lemma CellCorner(c: Cell, s: Cell, t: Cell, e: int, f: int)
    requires (e == 1 || e == -1) && (f == 1 || f == -1)
    requires e * (c.x - s.x) >= 1 && f * (c.y - s.y) >= 1
    requires D2(Cell(c.x - e, c.y - f), t) <= D2(Cell(c.x - e, c.y - f), s)
    ensures D2(Cell(c.x - e, c.y), s) <= D2(Cell(c.x - e, c.y), t)
            ==> D2(Cell(c.x, c.y - f), t) <= D2(Cell(c.x, c.y - f), s)
    ensures D2(Cell(c.x, c.y - f), s) <= D2(Cell(c.x, c.y - f), t)
            ==> D2(Cell(c.x - e, c.y), t) <= D2(Cell(c.x - e, c.y), s)
  {
    var u, v, i, j := c.x - s.x, c.y - s.y, s.x - t.x, s.y - t.y;
    if D2(Cell(c.x - e, c.y), s) <= D2(Cell(c.x - e, c.y), t) {
      OrientedCornerSigns(u, v, i, j, e, f);
    }
    if D2(Cell(c.x, c.y - f), s) <= D2(Cell(c.x, c.y - f), t) {
      OrientedCornerSigns(v, u, j, i, f, e);
    }
  }

  /**
   The crux. `p` and `q` are the two neighbours of `c` nearer to `s`, and `r` completes the square.
   If `t` beats `s` at `r` but not at `p`, then `t` beats `s` at `q`.
   */
  lemma SquareCorner(c: Cell, s: Cell, t: Cell, p: Cell, q: Cell, r: Cell)
    requires Adjacent(c, p) && Adjacent(c, q) && p != q
    requires D2(p, s) < D2(c, s) && D2(q, s) < D2(c, s)
    requires r == Cell(p.x + q.x - c.x, p.y + q.y - c.y)
    requires D2(r, t) <= D2(r, s) && D2(p, s) <= D2(p, t)
    ensures D2(q, t) <= D2(q, s)
  {
    NearerNeighbour(c, p, s);
    NearerNeighbour(c, q, s);
    CellCorner(c, s, t, Sign(c.x - s.x), Sign(c.y - s.y));
  }

  function Sign(n: int): int {
    if n < 0 then -1 else if n == 0 then 0 else 1
  }

  /** A nearer neighbour is one step towards the source along one axis. */
  lemma NearerNeighbour(c: Cell, p: Cell, s: Cell)
    requires Adjacent(c, p) && D2(p, s) < D2(c, s)
    ensures p == Cell(c.x, c.y - Sign(c.y - s.y)) || p == Cell(c.x - Sign(c.x - s.x), c.y)
  {
    if p.y == c.y {
      var e := c.x - p.x;
      assert D2(p, s) == D2(c, s) - 2 * (e * (c.x - s.x)) + 1;
    } else {
      var e := c.y - p.y;
      assert D2(p, s) == D2(c, s) - 2 * (e * (c.y - s.y)) + 1;
    }
  }

  // ---------------------------------------------------------------- one step of the sweep

  /** The neighbours an entry offers its source to once its cell is settled. */
  ghost function Offered(g: Problem, owner: Owners, e: Entry): set<Entry> {
    set y | y in Cells(g.w, g.h) && Adjacent(e.cell, y) && y !in owner && g.Reaches(y, e.src) :: Entry(y, e.src)
  }

  /** The popped entry was offered by a settled cell that is nearer to the source. */
  lemma CloserParent(g: Problem, owner: Owners, pending: set<Entry>, k: nat, e: Entry) returns (p: Cell)
    requires Inv(g, owner, pending, k)
    requires e in pending && e.cell !in owner && e.cell != e.src
    ensures p in owner && Adjacent(p, e.cell) && owner[p] == e.src && D2(p, e.src) < D2(e.cell, e.src)
  {
    assert EntryOk(g, owner, k, e);
    p :| p in owner && Adjacent(p, e.cell) && owner[p] == e.src;
    NeighbourNeverEquidistant(p, e.cell, e.src);
  }

  /** The fourth corner of the square lies in the map and is nearer still. */
  lemma FourthCorner(w: int, h: int, c: Cell, s: Cell, p: Cell, q: Cell) returns (r: Cell)
    requires InGrid(w, h, c) && InGrid(w, h, p) && InGrid(w, h, q)
    requires Adjacent(c, p) && Adjacent(c, q) && p != q
    requires D2(p, s) < D2(c, s) && D2(q, s) < D2(c, s)
    ensures r == Cell(p.x + q.x - c.x, p.y + q.y - c.y)
    ensures InGrid(w, h, r) && Adjacent(p, r) && Adjacent(r, q) && D2(r, s) < D2(p, s)
  {
    NearerNeighbour(c, p, s);
    NearerNeighbour(c, q, s);
    r := Cell(p.x + q.x - c.x, p.y + q.y - c.y);
    assert D2(p, s) + D2(q, s) == D2(c, s) + D2(r, s);
  }

  /** Every neighbour of the popped cell nearer to its source is settled, at least as well. */
  lemma NearNeighbourSettled(g: Problem, owner: Owners, pending: set<Entry>, k: nat, e: Entry, q: Cell)
    requires Inv(g, owner, pending, k)
    requires e in pending && e.cell !in owner && Rank(D2(e.cell, e.src)) == k
    requires InGrid(g.w, g.h, q) && Adjacent(e.cell, q) && D2(q, e.src) < D2(e.cell, e.src)
    ensures q in owner && Dist(owner, q) <= D2(q, e.src)
  {
    hide Norm;
    var c, s := e.cell, e.src;
    assert EntryOk(g, owner, k, e);
    D2Zero(c, s);
    var p := CloserParent(g, owner, pending, k, e);
    if q != p {
      assert SettledOk(g, owner, k, p);
      var r := FourthCorner(g.w, g.h, c, s, p, q);
      assert NoBetterFrom(g, owner, pending, p, r);
      var t := owner[r];
      assert NoBetterFrom(g, owner, pending, r, p);
      SquareCorner(c, s, t, p, q, r);
      RankOrder(q, t, c, s);
      assert NoBetterFrom(g, owner, pending, r, q);
      assert Entry(q, t) in pending ==> EntryOk(g, owner, k, Entry(q, t));
    }
  }

  /** No entry is ever queued in the bin being swept or in an earlier one. */
  lemma OffersLandLater(g: Problem, owner: Owners, pending: set<Entry>, k: nat, e: Entry, n: Entry)
    requires Inv(g, owner, pending, k)
    requires e in pending && e.cell !in owner && Rank(D2(e.cell, e.src)) == k
    requires n in Offered(g, owner[e.cell := e.src], e)
    ensures k < Rank(D2(n.cell, n.src))
  {
    hide Norm;
    NeighbourNeverEquidistant(e.cell, n.cell, e.src);
    if D2(n.cell, e.src) < D2(e.cell, e.src) {
      NearNeighbourSettled(g, owner, pending, k, e, n.cell);
    }
    RankOrder(e.cell, e.src, n.cell, n.src);
  }

  /** A source cell is popped with itself as its source. */
  lemma SourcePopsItself(g: Problem, owner: Owners, pending: set<Entry>, k: nat, e: Entry)
    requires Inv(g, owner, pending, k)
    requires e in pending && e.cell !in owner && Rank(D2(e.cell, e.src)) == k
    requires e.cell in g.sources
    ensures e.cell == e.src
  {
    hide Norm;
    assert EntryOk(g, owner, k, Entry(e.cell, e.cell));
    D2Zero(e.cell, e.cell);
    RankOrder(e.cell, e.cell, e.cell, e.src);
    D2Zero(e.cell, e.src);
  }

  lemma SettleKeepsEntries(g: Problem, owner: Owners, pending: set<Entry>, k: nat, e: Entry, owner': Owners)
    requires Inv(g, owner, pending, k)
    requires e in pending && e.cell !in owner && Rank(D2(e.cell, e.src)) == k
    requires owner' == owner[e.cell := e.src]
    ensures EntriesOk(g, owner', pending + Offered(g, owner', e), k)
  {
    hide Norm;
    assert EntryOk(g, owner, k, e);
    forall n | n in pending + Offered(g, owner', e)
      ensures EntryOk(g, owner', k, n)
    {
      if n in pending {
        assert EntryOk(g, owner, k, n);
        if n.cell != n.src {
          var p :| p in owner && Adjacent(p, n.cell) && owner[p] == n.src;
          assert p in owner' && owner'[p] == n.src;
        }
      } else {
        OffersLandLater(g, owner, pending, k, e, n);
        assert e.cell in owner' && owner'[e.cell] == n.src;
      }
    }
  }

  lemma SettleKeepsSettled(g: Problem, owner: Owners, pending: set<Entry>, k: nat, e: Entry, owner': Owners)
    requires Inv(g, owner, pending, k)
    requires e in pending && e.cell !in owner && Rank(D2(e.cell, e.src)) == k
    requires owner' == owner[e.cell := e.src]
    ensures AllSettledOk(g, owner', k)
  {
    hide Norm;
    assert EntryOk(g, owner, k, e);
    forall x | x in owner'
      ensures SettledOk(g, owner', k, x)
    {
      var p: Cell;
      if x == e.cell {
        if e.cell != e.src {
          p := CloserParent(g, owner, pending, k, e);
          assert p in owner' && owner'[p] == e.src;
        }
      } else {
        assert SettledOk(g, owner, k, x);
        if x != owner[x] {
          p :| p in owner && Adjacent(p, x) && owner[p] == owner[x] && D2(p, owner[x]) < D2(x, owner[x]);
          assert p in owner' && owner'[p] == owner[x];
        }
      }
    }
  }

  lemma SettleKeepsLocalOptimum(g: Problem, owner: Owners, pending: set<Entry>, k: nat, e: Entry, owner': Owners,
                                x: Cell, y: Cell)
    requires Inv(g, owner, pending, k)
    requires e in pending && e.cell !in owner && Rank(D2(e.cell, e.src)) == k
    requires owner' == owner[e.cell := e.src]
    requires x in owner' && InGrid(g.w, g.h, y) && Adjacent(x, y)
    ensures NoBetterFrom(g, owner', pending + Offered(g, owner', e), x, y)
    ensures D2(y, owner'[x]) < Dist(owner', x) ==> y in owner'
  {
    hide Norm;
    assert EntryOk(g, owner, k, e);
    if x == e.cell {
      if D2(y, e.src) < D2(e.cell, e.src) {
        NearNeighbourSettled(g, owner, pending, k, e, y);
      } else if y in owner {
        assert SettledOk(g, owner, k, y);
        RankOrder(y, owner[y], e.cell, e.src);
      } else {
        assert y in Cells(g.w, g.h);
      }
    } else {
      assert NoBetterFrom(g, owner, pending, x, y);
      if y == e.cell {
        assert g.Reaches(y, owner[x]) ==> EntryOk(g, owner, k, Entry(y, owner[x]));
        RankOrder(y, owner[x], e.cell, e.src);
      }
    }
  }

  /** Settling the cell of a popped entry and offering its source to the neighbours keeps the invariant. */
  lemma Settle(g: Problem, owner: Owners, pending: set<Entry>, k: nat, e: Entry, owner': Owners)
    requires Inv(g, owner, pending, k)
    requires e in pending && e.cell !in owner && Rank(D2(e.cell, e.src)) == k
    requires owner' == owner[e.cell := e.src]
    ensures Inv(g, owner', pending + Offered(g, owner', e), k)
  {
    hide Norm;
    var pending' := pending + Offered(g, owner', e);
    SettleKeepsEntries(g, owner, pending, k, e, owner');
    SettleKeepsSettled(g, owner, pending, k, e, owner');
    forall x, y | x in owner' && InGrid(g.w, g.h, y) && Adjacent(x, y)
      ensures NoBetterFrom(g, owner', pending', x, y)
      ensures D2(y, owner'[x]) < Dist(owner', x) ==> y in owner'
    {
      SettleKeepsLocalOptimum(g, owner, pending, k, e, owner', x, y);
    }
    forall s | s in g.sources
      ensures if s in owner' then owner'[s] == s else Entry(s, s) in pending'
    {
      if s == e.cell {
        SourcePopsItself(g, owner, pending, k, e);
      }
    }
  }

  /** A bin all of whose cells are settled may be dropped before the next one is swept. */
  lemma NextBin(g: Problem, owner: Owners, pending: set<Entry>, k: nat, pending': set<Entry>)
    requires Inv(g, owner, pending, k)
    requires pending' <= pending
    requires forall e <- pending :: e in pending' || e.cell in owner
    requires forall e <- pending' :: k < Rank(D2(e.cell, e.src))
    ensures Inv(g, owner, pending', k + 1)
  {
    hide Norm;
    forall e | e in pending'
      ensures EntryOk(g, owner, k + 1, e)
    {
      assert EntryOk(g, owner, k, e);
    }
    forall x | x in owner
      ensures SettledOk(g, owner, k + 1, x)
    {
      assert SettledOk(g, owner, k, x);
    }
    forall x, y | x in owner && InGrid(g.w, g.h, y) && Adjacent(x, y)
      ensures NoBetterFrom(g, owner, pending', x, y)
    {
      assert NoBetterFrom(g, owner, pending, x, y);
    }
  }

  /** The scan of the window starts the sweep in a good state. */
  lemma Start(g: Problem, pending: set<Entry>)
    requires g.Valid()
    requires forall e :: e in pending <==> e.src in g.sources && e.cell == e.src
    ensures Inv(g, map[], pending, 0)
  {
    hide Norm;
    forall e | e in pending
      ensures EntryOk(g, map[], 0, e)
    {
      D2Zero(e.cell, e.src);
    }
  }
}
