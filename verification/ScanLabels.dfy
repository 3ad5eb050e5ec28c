/** Scanning pixels in reading order: what the provisional labels mean after each pixel. */
module ScanLabels {
  import opened Grid
  import opened PixelGraph
  import opened LabelTrees

  /** `a` comes before `b` in reading order. */
  predicate Before(a: Cell, b: Cell) {
    a.y < b.y || (a.y == b.y && a.x < b.x)
  }

  ghost function Earlier(obs: set<Cell>, e: Cell): set<Cell> {
    set c | c in obs && Before(c, e)
  }

  /** The pixels that start a new label: no earlier obstacle pixel touches them. */
  ghost function Creators(way: Connectivity, obs: set<Cell>): set<Cell> {
    set c | c in obs && forall q | q in obs && Before(q, c) :: !Linked(way, c, q)
  }

  /** Labels of two scanned pixels are equivalent exactly when the pixels are in one group. */
  ghost predicate ScanInv(way: Connectivity, done: set<Cell>, lab: map<Cell, nat>, trees: seq<nat>) {
    && Forest(trees)
    && (forall c <- done :: c in lab && 0 < lab[c] < |trees|)
    && (forall p, q | p in done && q in done :: Equivalent(trees, lab, p, q) <==> Connected(way, done, p, q))
    && |trees| == |Creators(way, done)| + 1
    && EachOneLabel(Creators(way, done), lab, |trees|)
  }

  /** Of the pixels that start a label each has one of its own, and there are no other labels. */
  ghost predicate EachOneLabel(creators: set<Cell>, lab: map<Cell, nat>, n: nat) {
    && (forall c <- creators :: c in lab)
    && (forall c, d | c in creators && d in creators && lab[c] == lab[d] :: c == d)
    && (forall i: nat | 0 < i < n :: HasLabel(creators, lab, i))
  }

  ghost predicate HasLabel(creators: set<Cell>, lab: map<Cell, nat>, i: nat) {
    exists c :: c in creators && c in lab && lab[c] == i
  }

  lemma OneMoreLabel(creators: set<Cell>, lab: map<Cell, nat>, n: nat, e: Cell, l: nat)
    requires EachOneLabel(creators, lab, n) && e !in creators && n > 0 && forall c <- creators :: lab[c] < n
    ensures EachOneLabel(creators, lab[e := l], n)
    ensures l == n ==> EachOneLabel(creators + {e}, lab[e := l], n + 1)
  {
    var lab' := lab[e := l];
    forall i: nat | 0 < i < n
      ensures HasLabel(creators, lab', i) && HasLabel(creators + {e}, lab', i)
    {
      assert HasLabel(creators, lab, i);
      var c :| c in creators && c in lab && lab[c] == i;
      assert c in creators + {e} && lab'[c] == i;
    }
    assert l == n ==> HasLabel(creators + {e}, lab', n) by {
      assert e in creators + {e} && lab'[e] == l;
    }
  }

  lemma CreatorsAreScanned(way: Connectivity, done: set<Cell>)
    ensures Creators(way, done) <= done
  {
  }

  ghost predicate Equivalent(trees: seq<nat>, lab: map<Cell, nat>, p: Cell, q: Cell) {
    && Forest(trees) && p in lab && q in lab && lab[p] < |trees| && lab[q] < |trees|
    && Root(trees, lab[p]) == Root(trees, lab[q])
  }

  lemma NothingScanned(way: Connectivity)
    ensures ScanInv(way, {}, map[], [0])
  {
    assert Creators(way, {}) == {};
  }

  lemma CreatorsGrow(way: Connectivity, done: set<Cell>, e: Cell)
    requires e !in done && forall c | c in done :: Before(c, e)
    ensures Creators(way, done + {e}) ==
            Creators(way, done) + if forall q | q in done :: !Linked(way, e, q) then {e} else {}
  {
    var done' := done + {e};
    forall c
      ensures c in Creators(way, done') <==>
              c in Creators(way, done) || (c == e && forall q | q in done :: !Linked(way, e, q))
    {
      if c in done {
        assert !Before(e, c);
      }
    }
  }

  /** A pixel that links to scanned ones: their trees are joined and it takes a label of the joint tree. */
  lemma ScanBridge(way: Connectivity, done: set<Cell>, lab: map<Cell, nat>, trees: seq<nat>, trees': seq<nat>,
                   e: Cell, m: Cell, n: Cell, l: nat)
    requires ScanInv(way, done, lab, trees) && Bridges(way, done, e, m, n)
    requires forall c | c in done :: Before(c, e)
    requires United(trees, trees', lab[m], lab[n])
    requires 0 < l < |trees'| && Root(trees', l) == Root(trees', lab[m])
    ensures ScanInv(way, done + {e}, lab[e := l], trees')
  {
    hide Connected, Touches, Root, Creators, Linked, EachOneLabel;
    CreatorsGrow(way, done, e);
    assert Creators(way, done + {e}) == Creators(way, done);
    CreatorsAreScanned(way, done);
    OneMoreLabel(Creators(way, done), lab, |trees|, e, l);
    var lab' := lab[e := l];
    forall p, q | p in done + {e} && q in done + {e}
      ensures Equivalent(trees', lab', p, q) <==> Connected(way, done + {e}, p, q)
    {
      BridgePair(way, done, lab, trees, trees', e, m, n, l, p, q);
    }
  }

  lemma BridgePair(way: Connectivity, done: set<Cell>, lab: map<Cell, nat>, trees: seq<nat>, trees': seq<nat>,
                   e: Cell, m: Cell, n: Cell, l: nat, p: Cell, q: Cell)
    requires ScanInv(way, done, lab, trees) && Bridges(way, done, e, m, n)
    requires United(trees, trees', lab[m], lab[n])
    requires 0 < l < |trees'| && Root(trees', l) == Root(trees', lab[m])
    requires p in done + {e} && q in done + {e}
    ensures Equivalent(trees', lab[e := l], p, q) <==> Connected(way, done + {e}, p, q)
  {
    hide Connected, Touches, Root, Creators, Linked;
    AddBridge(way, done, e, m, n, p, q);
    JoinedLabels(way, done, lab, trees, trees', e, m, n, l, p);
    JoinedLabels(way, done, lab, trees, trees', e, m, n, l, q);
    if p == e || q == e {
      NotConnectedOutside(way, done, e, p, q);
    } else {
      assert Equivalent(trees, lab, p, q) <==> Connected(way, done, p, q);
      if Connected(way, done, p, q) {
        TouchesAlong(way, done, m, n, p, q);
      }
    }
  }

  lemma NotConnectedOutside(way: Connectivity, done: set<Cell>, e: Cell, p: Cell, q: Cell)
    requires e !in done && (p == e || q == e)
    ensures !Connected(way, done, p, q)
  {
    if Connected(way, done, p, q) {
      ConnectedEnds(way, done, p, q);
    }
  }

  /** After the union a pixel's root is the joint root exactly when it touches the new pixel's groups. */
  lemma JoinedLabels(way: Connectivity, done: set<Cell>, lab: map<Cell, nat>, trees: seq<nat>, trees': seq<nat>,
                     e: Cell, m: Cell, n: Cell, l: nat, p: Cell)
    requires ScanInv(way, done, lab, trees) && Bridges(way, done, e, m, n)
    requires United(trees, trees', lab[m], lab[n])
    requires 0 < l < |trees'| && Root(trees', l) == Root(trees', lab[m]) && p in done + {e}
    ensures var lab' := lab[e := l];
            lab'[p] < |trees'| &&
            if p == e || Touches(way, done, m, n, p)
            then Root(trees', lab'[p]) == Root(trees', lab[m])
            else Root(trees', lab'[p]) == Root(trees, lab[p]) && Root(trees', lab'[p]) != Root(trees', lab[m])
  {
    if p != e {
      assert Equivalent(trees, lab, p, m) <==> Connected(way, done, p, m);
      assert Equivalent(trees, lab, p, n) <==> Connected(way, done, p, n);
    }
  }

  lemma OneMoreCreator(way: Connectivity, done: set<Cell>, e: Cell)
    requires e !in done && (forall c | c in done :: Before(c, e) && !Linked(way, e, c))
    ensures |Creators(way, done + {e})| == |Creators(way, done)| + 1
  {
    hide Linked;
    CreatorsGrow(way, done, e);
    assert e !in Creators(way, done);
  }

  /** A pixel that links to no scanned one starts a tree of its own. */
  lemma ScanNew(way: Connectivity, done: set<Cell>, lab: map<Cell, nat>, trees: seq<nat>, e: Cell)
    requires ScanInv(way, done, lab, trees)
    requires e !in done && (forall c | c in done :: Before(c, e) && !Linked(way, e, c))
    ensures ScanInv(way, done + {e}, lab[e := |trees|], trees + [|trees|])
  {
    hide Connected, Root, Linked, Creators, EachOneLabel;
    CreatorsGrow(way, done, e);
    OneMoreCreator(way, done, e);
    CreatorsAreScanned(way, done);
    OneMoreLabel(Creators(way, done), lab, |trees|, e, |trees|);
    var lab', trees' := lab[e := |trees|], trees + [|trees|];
    assert Forest(trees');
    forall p, q | p in done + {e} && q in done + {e}
      ensures Equivalent(trees', lab', p, q) <==> Connected(way, done + {e}, p, q)
    {
      NewPair(way, done, lab, trees, e, p, q);
    }
  }

  lemma NewPair(way: Connectivity, done: set<Cell>, lab: map<Cell, nat>, trees: seq<nat>, e: Cell, p: Cell, q: Cell)
    requires ScanInv(way, done, lab, trees)
    requires e !in done && (forall c | c in done :: !Linked(way, e, c))
    requires p in done + {e} && q in done + {e}
    ensures Equivalent(trees + [|trees|], lab[e := |trees|], p, q) <==> Connected(way, done + {e}, p, q)
  {
    hide Connected, Root, Creators, Linked;
    var lab', trees' := lab[e := |trees|], trees + [|trees|];
    assert Forest(trees');
    AddIsolated(way, done, e, p, q);
    if p in done {
      RootOfLonger(trees, |trees|, lab[p]);
    }
    if q in done {
      RootOfLonger(trees, |trees|, lab[q]);
    }
    if p in done && q in done {
      assert Equivalent(trees, lab, p, q) <==> Connected(way, done, p, q);
    } else {
      NotConnectedOutside(way, done, e, p, q);
    }
  }

  lemma {:induction false} RootOfLonger(trees: seq<nat>, v: nat, i: nat)
    requires Forest(trees) && Forest(trees + [v]) && i < |trees|
    ensures Root(trees + [v], i) == Root(trees, i)
    decreases i
  {
    if trees[i] != i {
      RootOfLonger(trees, v, trees[i]);
    }
  }

  // ---------------------------------------------------------------- the decision trees

  /** `e`'s earlier neighbours, named as in the window of the scan. */
  function UpLeft(e: Cell): Cell { Cell(e.x - 1, e.y - 1) }
  function Up(e: Cell): Cell { Cell(e.x, e.y - 1) }
  function UpRight(e: Cell): Cell { Cell(e.x + 1, e.y - 1) }
  function Left(e: Cell): Cell { Cell(e.x - 1, e.y) }

  /** One pixel touches all groups the new pixel links to. */
  lemma OneSuffices(way: Connectivity, done: set<Cell>, e: Cell, m: Cell)
    requires e !in done && (forall c | c in done :: Before(c, e)) && m in done && Linked(way, e, m)
    requires forall q | q in {UpLeft(e), Up(e), UpRight(e), Left(e)} && q in done && Linked(way, e, q) ::
               q == m || Linked(way, q, m)
    ensures Bridges(way, done, e, m, m)
  {
    forall q | q in done && Linked(way, e, q)
      ensures Touches(way, done, m, m, q)
    {
      assert q in {UpLeft(e), Up(e), UpRight(e), Left(e)};
      if q == m {
        Reflexive(way, done, m);
      } else {
        Edge(way, done, q, m);
      }
    }
  }

  /** Two pixels between them touch all groups the new pixel links to. */
  lemma TwoSuffice(way: Connectivity, done: set<Cell>, e: Cell, m: Cell, n: Cell)
    requires e !in done && (forall c | c in done :: Before(c, e))
    requires m in done && Linked(way, e, m) && n in done && Linked(way, e, n)
    requires forall q | q in {UpLeft(e), Up(e), UpRight(e), Left(e)} && q in done && Linked(way, e, q) ::
               q == m || q == n || Linked(way, q, m) || Linked(way, q, n)
    ensures Bridges(way, done, e, m, n)
  {
    forall q | q in done && Linked(way, e, q)
      ensures Touches(way, done, m, n, q)
    {
      assert q in {UpLeft(e), Up(e), UpRight(e), Left(e)};
      if q == m || q == n {
        Reflexive(way, done, q);
      } else if Linked(way, q, m) {
        Edge(way, done, q, m);
      } else {
        Edge(way, done, q, n);
      }
    }
  }
}
