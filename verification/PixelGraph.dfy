/** Groups of obstacle pixels: connectivity by paths, and how one more pixel changes it. */
module PixelGraph {
  import opened Grid

  datatype Connectivity = Way4 | Way8

  /** Two different pixels that touch, by a side or, in an 8-linked image, by a corner. */
  predicate Linked(way: Connectivity, a: Cell, b: Cell) {
    && a != b && Abs(a.x - b.x) <= 1 && Abs(a.y - b.y) <= 1
    && (way.Way4? ==> a.x == b.x || a.y == b.y)
  }

  /** The neighbours by their offsets: four, or eight. */
  lemma LinkedOffsets(a: Cell, b: Cell)
    ensures Linked(Way4, a, b) <==>
            b in {Cell(a.x - 1, a.y), Cell(a.x + 1, a.y), Cell(a.x, a.y - 1), Cell(a.x, a.y + 1)}
    ensures Linked(Way8, a, b) <==>
            Linked(Way4, a, b) || b in {Cell(a.x - 1, a.y - 1), Cell(a.x + 1, a.y - 1),
                                        Cell(a.x - 1, a.y + 1), Cell(a.x + 1, a.y + 1)}
  {
  }

  ghost predicate IsPath(way: Connectivity, obs: set<Cell>, path: seq<Cell>) {
    && |path| > 0
    && (forall i | 0 <= i < |path| :: path[i] in obs)
    && (forall i | 0 < i < |path| :: Linked(way, path[i - 1], path[i]))
  }

  ghost predicate PathFromTo(way: Connectivity, obs: set<Cell>, path: seq<Cell>, p: Cell, q: Cell) {
    IsPath(way, obs, path) && path[0] == p && path[|path| - 1] == q
  }

  ghost predicate Connected(way: Connectivity, obs: set<Cell>, p: Cell, q: Cell) {
    exists path :: PathFromTo(way, obs, path, p, q)
  }

  /** The group of obstacle pixels that `p` belongs to. */
  ghost function Component(way: Connectivity, obs: set<Cell>, p: Cell): set<Cell> {
    set q | q in obs && Connected(way, obs, p, q)
  }

  lemma ConnectedEnds(way: Connectivity, obs: set<Cell>, p: Cell, q: Cell)
    requires Connected(way, obs, p, q)
    ensures p in obs && q in obs
  {
  }

  lemma Reflexive(way: Connectivity, obs: set<Cell>, p: Cell)
    requires p in obs
    ensures Connected(way, obs, p, p)
  {
    assert PathFromTo(way, obs, [p], p, p);
  }

  lemma Edge(way: Connectivity, obs: set<Cell>, p: Cell, q: Cell)
    requires p in obs && q in obs && Linked(way, p, q)
    ensures Connected(way, obs, p, q)
  {
    assert PathFromTo(way, obs, [p, q], p, q);
  }

  lemma Transitive(way: Connectivity, obs: set<Cell>, p: Cell, q: Cell, r: Cell)
    requires Connected(way, obs, p, q) && Connected(way, obs, q, r)
    ensures Connected(way, obs, p, r)
  {
    var s :| PathFromTo(way, obs, s, p, q);
    var t :| PathFromTo(way, obs, t, q, r);
    assert PathFromTo(way, obs, s + t[1..], p, r);
  }

  lemma Symmetric(way: Connectivity, obs: set<Cell>, p: Cell, q: Cell)
    requires Connected(way, obs, p, q)
    ensures Connected(way, obs, q, p)
  {
    var s :| PathFromTo(way, obs, s, p, q);
    var t := seq(|s|, i requires 0 <= i < |s| => s[|s| - 1 - i]);
    forall i | 0 < i < |t|
      ensures Linked(way, t[i - 1], t[i])
    {
      assert Linked(way, s[|s| - 1 - i], s[|s| - i]);
    }
    assert PathFromTo(way, obs, t, q, p);
  }

  lemma MorePixels(way: Connectivity, obs: set<Cell>, obs': set<Cell>, p: Cell, q: Cell)
    requires Connected(way, obs, p, q) && obs <= obs'
    ensures Connected(way, obs', p, q)
  {
    var s :| PathFromTo(way, obs, s, p, q);
    assert PathFromTo(way, obs', s, p, q);
  }

  /** What holds of `p` and is handed on along every link holds of all of `p`'s group. */
  lemma {:induction false} AlongPath(way: Connectivity, obs: set<Cell>, path: seq<Cell>, holds: Cell -> bool)
    requires IsPath(way, obs, path) && holds(path[0])
    requires forall u, v | u in obs && v in obs && Linked(way, u, v) && holds(u) :: holds(v)
    ensures holds(path[|path| - 1])
    decreases |path|
  {
    if |path| > 1 {
      AlongPath(way, obs, path[1..], holds);
    }
  }

  /** An isolated pixel is its own group, and only such a pixel is in a group of fewer than two. */
  lemma SmallestGroup(way: Connectivity, obs: set<Cell>, p: Cell)
    requires p in obs
    ensures |Component(way, obs, p)| < 2 <==> forall q | q in obs :: !Linked(way, p, q)
  {
    Reflexive(way, obs, p);
    var g := Component(way, obs, p);
    if q :| q in obs && Linked(way, p, q) {
      Edge(way, obs, p, q);
      assert {p, q} <= g;
      Subset({p, q}, g);
    } else {
      forall q | q in g
        ensures q == p
      {
        var s :| PathFromTo(way, obs, s, p, q);
        AlongPath(way, obs, s, (x: Cell) => x == p);
      }
      assert g == {p};
    }
  }

  lemma {:induction false} Subset<T>(a: set<T>, b: set<T>)
    requires a <= b
    ensures |a| <= |b|
    decreases a
  {
    if a != {} {
      var x :| x in a;
      Subset(a - {x}, b - {x});
    }
  }

  // ---------------------------------------------------------------- one more pixel

  /** `p` is in the group of one of the two pixels `m`, `n`. */
  ghost predicate Touches(way: Connectivity, obs: set<Cell>, m: Cell, n: Cell, p: Cell) {
    Connected(way, obs, p, m) || Connected(way, obs, p, n)
  }

  /** The links of a new pixel `e` all lead into the groups of `m` and `n`, which it links to. */
  ghost predicate Bridges(way: Connectivity, obs: set<Cell>, e: Cell, m: Cell, n: Cell) {
    && e !in obs && m in obs && n in obs && Linked(way, e, m) && Linked(way, e, n)
    && forall q | q in obs && Linked(way, e, q) :: Touches(way, obs, m, n, q)
  }

  lemma LinkedSymmetric(way: Connectivity, a: Cell, b: Cell)
    ensures Linked(way, a, b) <==> Linked(way, b, a)
  {
  }

  lemma TouchesAlong(way: Connectivity, obs: set<Cell>, m: Cell, n: Cell, p: Cell, q: Cell)
    requires Connected(way, obs, p, q)
    ensures Touches(way, obs, m, n, p) <==> Touches(way, obs, m, n, q)
  {
    Symmetric(way, obs, p, q);
    forall r | r == m || r == n
      ensures Connected(way, obs, p, r) <==> Connected(way, obs, q, r)
    {
      if Connected(way, obs, p, r) {
        Transitive(way, obs, q, p, r);
      }
      if Connected(way, obs, q, r) {
        Transitive(way, obs, p, q, r);
      }
    }
  }

  /** Connectivity once `e` is there, in terms of connectivity before. */
  ghost predicate Joined(way: Connectivity, obs: set<Cell>, e: Cell, m: Cell, n: Cell, p: Cell, q: Cell) {
    || Connected(way, obs, p, q)
    || ((p == e || Touches(way, obs, m, n, p)) && (q == e || Touches(way, obs, m, n, q)))
  }

  lemma JoinedAlongLink(way: Connectivity, obs: set<Cell>, e: Cell, m: Cell, n: Cell, p: Cell, u: Cell, v: Cell)
    requires Bridges(way, obs, e, m, n) && p in obs + {e}
    requires u in obs + {e} && v in obs + {e} && Linked(way, u, v) && Joined(way, obs, e, m, n, p, u)
    ensures Joined(way, obs, e, m, n, p, v)
  {
    LinkedSymmetric(way, u, v);
    if u != e && v != e {
      Edge(way, obs, u, v);
      TouchesAlong(way, obs, m, n, u, v);
      if Connected(way, obs, p, u) {
        Transitive(way, obs, p, u, v);
      }
    } else if v == e {
      assert Touches(way, obs, m, n, u);
      if Connected(way, obs, p, u) {
        TouchesAlong(way, obs, m, n, p, u);
      }
    } else {
      assert Touches(way, obs, m, n, v);
      assert !Connected(way, obs, p, e) by {
        if Connected(way, obs, p, e) {
          ConnectedEnds(way, obs, p, e);
        }
      }
    }
  }

  lemma JoinedIsConnected(way: Connectivity, obs: set<Cell>, e: Cell, m: Cell, n: Cell, p: Cell, q: Cell)
    requires Bridges(way, obs, e, m, n) && p in obs + {e} && q in obs + {e}
    ensures Connected(way, obs + {e}, p, q) ==> Joined(way, obs, e, m, n, p, q) || (p == e && q == e)
  {
    if Connected(way, obs + {e}, p, q) {
      var s :| PathFromTo(way, obs + {e}, s, p, q);
      if p != e {
        Reflexive(way, obs, p);
      }
      var holds := (x: Cell) => Joined(way, obs, e, m, n, p, x);
      forall u, v | u in obs + {e} && v in obs + {e} && Linked(way, u, v) && holds(u)
        ensures holds(v)
      {
        JoinedAlongLink(way, obs, e, m, n, p, u, v);
      }
      AlongPath(way, obs + {e}, s, holds);
    }
  }

  /** A pixel in one of the two groups is connected to the new pixel. */
  lemma TouchingReachesNew(way: Connectivity, obs: set<Cell>, e: Cell, m: Cell, n: Cell, p: Cell)
    requires Bridges(way, obs, e, m, n) && Touches(way, obs, m, n, p)
    ensures Connected(way, obs + {e}, p, e)
  {
    var obs' := obs + {e};
    LinkedSymmetric(way, e, m);
    LinkedSymmetric(way, e, n);
    Edge(way, obs', m, e);
    Edge(way, obs', n, e);
    if Connected(way, obs, p, m) {
      MorePixels(way, obs, obs', p, m);
      Transitive(way, obs', p, m, e);
    } else {
      MorePixels(way, obs, obs', p, n);
      Transitive(way, obs', p, n, e);
    }
  }

  /** Adding a pixel that bridges two groups (or touches one) joins exactly those groups. */
  lemma AddBridge(way: Connectivity, obs: set<Cell>, e: Cell, m: Cell, n: Cell, p: Cell, q: Cell)
    requires Bridges(way, obs, e, m, n) && p in obs + {e} && q in obs + {e}
    ensures Connected(way, obs + {e}, p, q) <==>
            (Connected(way, obs, p, q) ||
             ((p == e || Touches(way, obs, m, n, p)) && (q == e || Touches(way, obs, m, n, q))))
  {
    var obs' := obs + {e};
    JoinedIsConnected(way, obs, e, m, n, p, q);
    Reflexive(way, obs', e);
    if Connected(way, obs, p, q) {
      MorePixels(way, obs, obs', p, q);
    } else if Joined(way, obs, e, m, n, p, q) {
      if p != e {
        TouchingReachesNew(way, obs, e, m, n, p);
      }
      if q != e {
        TouchingReachesNew(way, obs, e, m, n, q);
        Symmetric(way, obs', q, e);
      }
      Transitive(way, obs', p, e, q);
    }
  }

  /** Adding a pixel without links changes no other group. */
  lemma AddIsolated(way: Connectivity, obs: set<Cell>, e: Cell, p: Cell, q: Cell)
    requires e !in obs && (forall r | r in obs :: !Linked(way, e, r)) && p in obs + {e} && q in obs + {e}
    ensures Connected(way, obs + {e}, p, q) <==> (Connected(way, obs, p, q) || (p == e && q == e))
  {
    var obs' := obs + {e};
    Reflexive(way, obs', e);
    if Connected(way, obs, p, q) {
      MorePixels(way, obs, obs', p, q);
    }
    if Connected(way, obs', p, q) {
      var s :| PathFromTo(way, obs', s, p, q);
      if p != e {
        Reflexive(way, obs, p);
      }
      var holds := (x: Cell) => if p == e then x == e else Connected(way, obs, p, x);
      forall u, v | u in obs' && v in obs' && Linked(way, u, v) && holds(u)
        ensures holds(v)
      {
        LinkedSymmetric(way, u, v);
        if p != e {
          ConnectedEnds(way, obs, p, u);
          Edge(way, obs, u, v);
          Transitive(way, obs, p, u, v);
        }
      }
      AlongPath(way, obs', s, holds);
    }
  }
}
