/** What the wavefront has reached once every bin is empty. */
module WavefrontEnd {
  import opened Grid
  import opened Wavefront

  /** The sweep is over: nothing is waiting. */
  ghost predicate Final(g: Problem, owner: Owners) {
    exists k: nat :: Inv(g, owner, {}, k)
  }

  // ---------------------------------------------------------------- local optimality

  /** Two neighbouring cells: neither would gain from the other's obstacle. */
  lemma NeighbourGainsNothing(g: Problem, owner: Owners, x: Cell, y: Cell)
    requires Final(g, owner)
    requires x in owner && InGrid(g.w, g.h, y) && Adjacent(x, y)
    ensures g.Reaches(y, owner[x]) ==> y in owner
    ensures y in owner ==> Dist(owner, y) <= D2(y, owner[x])
    ensures D2(y, owner[x]) < Dist(owner, x) ==> y in owner
  {
    var k: nat :| Inv(g, owner, {}, k);
    assert NoBetterFrom(g, owner, {}, x, y);
  }

  /** Every settled cell has an obstacle within the radius, and a source is its own obstacle. */
  lemma SettledWithinRadius(g: Problem, owner: Owners, x: Cell)
    requires Final(g, owner)
    ensures x in owner ==> InGrid(g.w, g.h, x) && owner[x] in g.sources && g.Reaches(x, owner[x])
    ensures x in owner && x != owner[x] ==> HasCloserParent(owner, Entry(x, owner[x]))
    ensures x in g.sources ==> x in owner && owner[x] == x
  {
    var k: nat :| Inv(g, owner, {}, k);
    assert x in owner ==> SettledOk(g, owner, k, x);
  }

  // ---------------------------------------------------------------- coverage

  /** A cell `m` moves away from an obstacle, `m` within the radius, is settled no farther than `m`. */
  lemma {:induction false} ManhattanCoverage(g: Problem, owner: Owners, s: Cell, y: Cell)
    requires Final(g, owner)
    requires s in g.sources && InGrid(g.w, g.h, s) && InGrid(g.w, g.h, y)
    requires Manhattan(s, y) <= g.radius
    ensures y in owner && Dist(owner, y) <= Manhattan(s, y) * Manhattan(s, y)
    decreases Manhattan(s, y)
  {
    hide Norm, Final;
    SettledWithinRadius(g, owner, s);
    D2Zero(s, s);
    if s != y {
      var m := Manhattan(s, y);
      var x := StepTowards(g.w, g.h, y, s);
      ManhattanCoverage(g, owner, s, x);
      NeighbourWithin(x, y, owner[x], m - 1);
      SquareMonotone(m, g.radius);
      NeighbourGainsNothing(g, owner, x, y);
    }
  }

  /** From any cell but `s` one move leads nearer to `s`, staying in the map. */
  lemma StepTowards(w: int, h: int, y: Cell, s: Cell) returns (p: Cell)
    requires y != s && InGrid(w, h, y) && InGrid(w, h, s)
    ensures Adjacent(p, y) && InGrid(w, h, p)
    ensures Manhattan(s, p) == Manhattan(s, y) - 1 && D2(p, s) < D2(y, s)
  {
    hide Norm;
    if y.x != s.x {
      p := Cell(y.x - Sign(y.x - s.x), y.y);
      NearerAlongAxis(p.x - s.x, y.x - s.x, y.y - s.y);
    } else {
      p := Cell(y.x, y.y - Sign(y.y - s.y));
      NearerAlongAxis(p.y - s.y, y.y - s.y, y.x - s.x);
    }
  }

  lemma SquareMonotone(m: nat, n: nat)
    requires m <= n
    ensures m * m <= n * n
  {
    SquareLess(n, m);
  }

  // ---------------------------------------------------------------- exactness

  ghost predicate Nearest(g: Problem, y: Cell, s: Cell) {
    s in g.sources && forall t <- g.sources :: D2(y, s) <= D2(y, t)
  }

  /** Some obstacle is within the inflation radius of `y`. */
  ghost predicate Covered(g: Problem, y: Cell) {
    InGrid(g.w, g.h, y) && exists s :: s in g.sources && g.Reaches(y, s)
  }

  /** Inflation used the nearest obstacle of every cell it should have reached. */
  ghost predicate Exact(g: Problem, owner: Owners) {
    forall y :: Covered(g, y) ==> y in owner && Nearest(g, y, owner[y])
  }

  /** Some neighbour nearer to the obstacles has only nearest obstacles that are nearest to `y` too. */
  ghost predicate Inherits(g: Problem, y: Cell) {
    exists p :: InGrid(g.w, g.h, p) && Adjacent(p, y) &&
                forall s | Nearest(g, p, s) :: Nearest(g, y, s) && D2(p, s) < D2(y, s)
  }

  /** Some neighbour nearer to an obstacle shares that nearest obstacle with `y`. */
  ghost predicate Shares(g: Problem, y: Cell) {
    exists p, s :: InGrid(g.w, g.h, p) && Adjacent(p, y) &&
                   Nearest(g, p, s) && Nearest(g, y, s) && D2(p, s) < D2(y, s)
  }

  ghost predicate AllInherit(g: Problem) {
    forall y {:trigger Inherits(g, y)} | Covered(g, y) && y !in g.sources :: Inherits(g, y)
  }

  ghost predicate AllShare(g: Problem) {
    forall y {:trigger Shares(g, y)} | Covered(g, y) && y !in g.sources :: Shares(g, y)
  }

  /** No cell within the radius has two nearest obstacles. */
  ghost predicate NoTies(g: Problem) {
    forall y, s, t | Covered(g, y) && Nearest(g, y, s) && Nearest(g, y, t) :: s == t
  }

  lemma {:induction false} NearestAmong(y: Cell, todo: set<Cell>) returns (s: Cell)
    requires todo != {}
    ensures s in todo && forall t <- todo :: D2(y, s) <= D2(y, t)
    decreases todo
  {
    hide Norm;
    var first :| first in todo;
    var rest := todo - {first};
    assert forall t <- todo :: t in rest || t == first;
    s := first;
    if rest != {} {
      var r := NearestAmong(y, rest);
      s := if D2(y, r) < D2(y, first) then r else first;
    }
  }

  lemma NearestExists(g: Problem, y: Cell) returns (s: Cell)
    requires g.sources != {}
    ensures Nearest(g, y, s)
  {
    s := NearestAmong(y, g.sources);
  }

  /** The nearest obstacle of a covered cell is within the radius. */
  lemma NearestReaches(g: Problem, y: Cell, s: Cell)
    requires Covered(g, y) && Nearest(g, y, s)
    ensures g.Reaches(y, s)
  {
    hide Norm;
  }

  lemma {:induction false} ExactAt(g: Problem, owner: Owners, y: Cell, s: Cell)
    requires Final(g, owner) && AllInherit(g)
    requires InGrid(g.w, g.h, y) && Nearest(g, y, s) && g.Reaches(y, s)
    ensures y in owner && Nearest(g, y, owner[y])
    decreases D2(y, s)
  {
    hide Norm, Final;
    SettledWithinRadius(g, owner, y);
    if y in g.sources {
      D2Zero(y, y);
    } else {
      assert Covered(g, y);
      assert Inherits(g, y);
      var p :| InGrid(g.w, g.h, p) && Adjacent(p, y) &&
               forall s | Nearest(g, p, s) :: Nearest(g, y, s) && D2(p, s) < D2(y, s);
      var t := NearestExists(g, p);
      ExactAt(g, owner, p, t);
      NeighbourGainsNothing(g, owner, p, y);
      SettledWithinRadius(g, owner, y);
    }
  }

  /** If every covered cell inherits, inflation is exact, whatever the order within a bin. */
  lemma ExactIf(g: Problem, owner: Owners)
    requires Final(g, owner) && AllInherit(g)
    ensures Exact(g, owner)
  {
    hide Norm, Final;
    forall y | Covered(g, y)
      ensures y in owner && Nearest(g, y, owner[y])
    {
      var s := NearestExists(g, y);
      ExactAt(g, owner, y, s);
    }
  }

  /** If inflation is exact, every covered cell shares a nearest obstacle with a nearer neighbour. */
  lemma ExactOnlyIf(g: Problem, owner: Owners)
    requires Final(g, owner) && Exact(g, owner)
    ensures AllShare(g)
  {
    hide Norm, Final;
    forall y | Covered(g, y) && y !in g.sources
      ensures Shares(g, y)
    {
      var s := owner[y];
      SettledWithinRadius(g, owner, y);
      assert HasCloserParent(owner, Entry(y, s));
      var p :| p in owner && Adjacent(p, y) && owner[p] == s && D2(p, s) < D2(y, s);
      SettledWithinRadius(g, owner, p);
      assert Covered(g, p);
    }
  }

  /** With distinct nearest obstacles the two conditions meet: a test on the obstacles alone. */
  lemma ExactIff(g: Problem, owner: Owners)
    requires Final(g, owner) && NoTies(g)
    ensures Exact(g, owner) <==> AllShare(g)
  {
    hide Norm, Final;
    if Exact(g, owner) {
      ExactOnlyIf(g, owner);
    }
    if AllShare(g) {
      forall y | Covered(g, y) && y !in g.sources
        ensures Inherits(g, y)
      {
        assert Shares(g, y);
        var p, s :| InGrid(g.w, g.h, p) && Adjacent(p, y) &&
                    Nearest(g, p, s) && Nearest(g, y, s) && D2(p, s) < D2(y, s);
        NearestReaches(g, y, s);
        assert g.Reaches(p, s);
        assert Covered(g, p);
      }
      ExactIf(g, owner);
    }
  }

  /** With one obstacle the settled cells are exactly the disc around it, clipped to the map. */
  lemma SingleSourceDisc(g: Problem, owner: Owners, s: Cell)
    requires Final(g, owner) && g.sources == {s} && InGrid(g.w, g.h, s)
    ensures forall y :: y in owner <==> InGrid(g.w, g.h, y) && g.Reaches(y, s)
  {
    hide Norm, Final;
    forall y | Covered(g, y) && y !in g.sources
      ensures Inherits(g, y)
    {
      var p := StepTowards(g.w, g.h, y, s);
      assert forall t | Nearest(g, p, t) :: t == s;
      assert Nearest(g, y, s);
    }
    ExactIf(g, owner);
    forall y
      ensures y in owner <==> InGrid(g.w, g.h, y) && g.Reaches(y, s)
    {
      SettledWithinRadius(g, owner, y);
      assert InGrid(g.w, g.h, y) && g.Reaches(y, s) ==> Covered(g, y);
    }
  }
}
