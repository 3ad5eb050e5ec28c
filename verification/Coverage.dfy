/** Which cells within the radius of an obstacle are reached at all, from the obstacles alone. */
module Coverage {
  import opened Grid
  import opened Wavefront
  import opened WavefrontEnd

  /** Every nearest obstacle of `p` is one of its neighbour `y` too, and nearer to `p`. */
  ghost predicate InheritsFrom(g: Problem, y: Cell, p: Cell) {
    InGrid(g.w, g.h, p) && Adjacent(p, y) && forall s | Nearest(g, p, s) :: Nearest(g, y, s) && D2(p, s) < D2(y, s)
  }

  ghost predicate Grounded(g: Problem, core: set<Cell>, y: Cell) {
    Covered(g, y) && (y in g.sources || exists p :: p in core && InheritsFrom(g, y, p))
  }

  /** A set of cells each of which is an obstacle or inherits within the set. */
  ghost predicate Core(g: Problem, core: set<Cell>) {
    forall y {:trigger Grounded(g, core, y)} | y in core :: Grounded(g, core, y)
  }

  /** In such a set every cell is settled by a nearest obstacle. */
  lemma {:induction false} ExactInCore(g: Problem, owner: Owners, core: set<Cell>, y: Cell, s: Cell)
    requires Final(g, owner) && Core(g, core) && y in core && Nearest(g, y, s)
    ensures y in owner && Nearest(g, y, owner[y])
    decreases D2(y, s)
  {
    hide Norm, Final;
    assert Grounded(g, core, y);
    SettledWithinRadius(g, owner, y);
    NearestReaches(g, y, s);
    if y in g.sources {
      D2Zero(y, y);
    } else {
      var p :| p in core && InheritsFrom(g, y, p);
      var t := NearestExists(g, p);
      ExactInCore(g, owner, core, p, t);
      NeighbourGainsNothing(g, owner, p, y);
      SettledWithinRadius(g, owner, y);
    }
  }

  /** The obstacles that `p` can be settled by, as far as the set tells. */
  ghost predicate MayOwn(g: Problem, core: set<Cell>, p: Cell, t: Cell) {
    t in g.sources && g.Reaches(p, t) && (p in core ==> Nearest(g, p, t))
  }

  lemma OwnerMayOwn(g: Problem, owner: Owners, core: set<Cell>, p: Cell)
    requires Final(g, owner) && Core(g, core) && p in owner
    ensures MayOwn(g, core, p, owner[p])
  {
    hide Norm, Final, Core;
    SettledWithinRadius(g, owner, p);
    if p in core {
      var s := NearestExists(g, p);
      ExactInCore(g, owner, core, p, s);
    }
  }

  // ---------------------------------------------------------------- sufficient

  /** Neighbour `p` is nearer to the nearest obstacle `s`, and whichever obstacle settles it reaches `y`. */
  ghost predicate ServedBy(g: Problem, core: set<Cell>, y: Cell, p: Cell, s: Cell) {
    && InGrid(g.w, g.h, p) && Adjacent(p, y) && Nearest(g, y, s) && D2(p, s) < D2(y, s)
    && forall t | MayOwn(g, core, p, t) :: g.Reaches(y, t)
  }

  ghost predicate Served(g: Problem, core: set<Cell>, y: Cell) {
    exists p, s :: ServedBy(g, core, y, p, s)
  }

  ghost predicate AllServed(g: Problem, core: set<Cell>) {
    forall y {:trigger Served(g, core, y)} | Covered(g, y) && y !in g.sources && y !in core :: Served(g, core, y)
  }

  /** If every covered cell outside the set is served, every covered cell is settled. */
  lemma {:induction false} SettledIfServed(g: Problem, owner: Owners, core: set<Cell>, y: Cell, s: Cell)
    requires Final(g, owner) && Core(g, core) && AllServed(g, core)
    requires Covered(g, y) && Nearest(g, y, s)
    ensures y in owner
    decreases D2(y, s)
  {
    hide Norm, Final, Core;
    SettledWithinRadius(g, owner, y);
    NearestReaches(g, y, s);
    if y in core {
      ExactInCore(g, owner, core, y, s);
    } else if y !in g.sources {
      assert Served(g, core, y);
      var p, u :| ServedBy(g, core, y, p, u);
      var v := NearestExists(g, p);
      assert g.Reaches(p, u);
      assert Covered(g, p);
      SettledIfServed(g, owner, core, p, v);
      OwnerMayOwn(g, owner, core, p);
      NeighbourGainsNothing(g, owner, p, y);
    }
  }

  // ---------------------------------------------------------------- necessary

  /** Some obstacle that may settle neighbour `p`, and is nearer to it, reaches `y`. */
  ghost predicate OfferedBy(g: Problem, core: set<Cell>, y: Cell, p: Cell, t: Cell) {
    InGrid(g.w, g.h, p) && Adjacent(p, y) && MayOwn(g, core, p, t) && g.Reaches(y, t) && D2(p, t) < D2(y, t)
  }

  /** A settled cell that is no obstacle was offered an obstacle that may settle the neighbour it came from. */
  lemma SettledOnlyIfOffered(g: Problem, owner: Owners, core: set<Cell>, y: Cell)
    requires Final(g, owner) && Core(g, core) && y in owner && y !in g.sources
    ensures exists p, t :: OfferedBy(g, core, y, p, t)
  {
    hide Norm, Final, Core;
    SettledWithinRadius(g, owner, y);
    var t := owner[y];
    assert HasCloserParent(owner, Entry(y, t));
    var p :| p in owner && Adjacent(p, y) && owner[p] == t && D2(p, t) < D2(y, t);
    SettledWithinRadius(g, owner, p);
    OwnerMayOwn(g, owner, core, p);
    assert OfferedBy(g, core, y, p, t);
  }

  // ---------------------------------------------------------------- where the two meet

  /** All that can be settled around `y` is in the set, with one nearest obstacle each. */
  ghost predicate Surrounded(g: Problem, core: set<Cell>, y: Cell) {
    && (forall p | Adjacent(p, y) && Covered(g, p) :: p in core)
    && (forall p, s, t | Adjacent(p, y) && Covered(g, p) && Nearest(g, p, s) && Nearest(g, p, t) :: s == t)
  }

  ghost predicate Hands(g: Problem, y: Cell, p: Cell, t: Cell) {
    Adjacent(p, y) && Covered(g, p) && Nearest(g, p, t) && g.Reaches(y, t)
  }

  /** Such a cell is settled iff the nearest obstacle of a covered neighbour reaches it. */
  lemma SettledIffHanded(g: Problem, owner: Owners, core: set<Cell>, y: Cell)
    requires Final(g, owner) && Core(g, core) && InGrid(g.w, g.h, y) && y !in g.sources && Surrounded(g, core, y)
    ensures y in owner <==> exists p, t :: Hands(g, y, p, t)
  {
    hide Norm, Final, Core;
    if y in owner {
      SettledOnlyIfOffered(g, owner, core, y);
      var p, t :| OfferedBy(g, core, y, p, t);
      assert Covered(g, p);
      assert Hands(g, y, p, t);
    }
    if p, t :| Hands(g, y, p, t) {
      ExactInCore(g, owner, core, p, t);
      NeighbourGainsNothing(g, owner, p, y);
    }
  }
}
