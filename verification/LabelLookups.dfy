/** Which provisional labels are looked up in the cut label vector, and which beyond its end. */
module LabelLookups {
  import opened Grid
  import opened PixelGraph
  import opened LabelTrees
  import opened ScanLabels

  /** Two pixels that start a label each turn out to be in one group. */
  ghost predicate CreatorsMeet(way: Connectivity, obs: set<Cell>) {
    exists c, d :: MeetAt(way, obs, c, d)
  }

  ghost predicate MeetAt(way: Connectivity, obs: set<Cell>, c: Cell, d: Cell) {
    c in Creators(way, obs) && d in Creators(way, obs) && c != d && Connected(way, obs, c, d)
  }

  lemma MeetingLabels(way: Connectivity, obs: set<Cell>, lab: map<Cell, nat>, trees: seq<nat>)
    requires ScanInv(way, obs, lab, trees)
    ensures CreatorsMeet(way, obs) <==> !AllRoots(trees)
  {
    hide Connected, Root, Creators;
    CreatorsAreScanned(way, obs);
    if CreatorsMeet(way, obs) {
      var c, d :| MeetAt(way, obs, c, d);
      assert Equivalent(trees, lab, c, d);
    }
    if !AllRoots(trees) {
      var i: nat :| i < |trees| && Root(trees, i) != i;
      var r := Root(trees, i);
      RootIsRoot(trees, i);
      assert HasLabel(Creators(way, obs), lab, i) && HasLabel(Creators(way, obs), lab, r);
      var c :| c in Creators(way, obs) && c in lab && lab[c] == i;
      var d :| d in Creators(way, obs) && d in lab && lab[d] == r;
      assert Equivalent(trees, lab, c, d);
      assert MeetAt(way, obs, c, d);
    }
  }

  lemma RootIsRoot(trees: seq<nat>, i: nat)
    requires Forest(trees) && i < |trees|
    ensures var r := Root(trees, i); r < |trees| && Root(trees, r) == r && (r == 0 <==> i == 0)
  {
  }

  /** Some pixel's provisional label lies beyond the cut vector iff two label-starting pixels are in one group. */
  lemma StrayIff(way: Connectivity, obs: set<Cell>, lab: map<Cell, nat>, trees: seq<nat>, storage: seq<nat>, k: nat)
    requires ScanInv(way, obs, lab, trees) && Numbered(trees, storage, k) && (k == |storage| <==> AllRoots(trees))
    ensures (exists c :: c in obs && lab[c] >= k) <==> CreatorsMeet(way, obs)
  {
    hide Connected, Root, Creators, NoneSkipped, CreatorsMeet, AllRoots;
    MeetingLabels(way, obs, lab, trees);
    CreatorsAreScanned(way, obs);
    if k < |storage| {
      var last: nat := |storage| - 1;
      assert HasLabel(Creators(way, obs), lab, last);
      var c :| c in Creators(way, obs) && c in lab && lab[c] == last;
      assert c in obs && lab[c] >= k;
    }
  }

  // ---------------------------------------------------------------- the smallest such image

  const U_SHAPE := {Cell(0, 0), Cell(2, 0), Cell(0, 1), Cell(1, 1), Cell(2, 1)}

  lemma UShapeCreators()
    ensures Creators(Way4, U_SHAPE) == {Cell(0, 0), Cell(2, 0)}
  {
    assert Linked(Way4, Cell(0, 1), Cell(0, 0)) && Before(Cell(0, 0), Cell(0, 1));
    assert Linked(Way4, Cell(1, 1), Cell(0, 1)) && Before(Cell(0, 1), Cell(1, 1));
    assert Linked(Way4, Cell(2, 1), Cell(1, 1)) && Before(Cell(1, 1), Cell(2, 1));
  }

  lemma UShapeConnected()
    ensures Connected(Way4, U_SHAPE, Cell(0, 0), Cell(2, 0))
  {
    hide Linked;
    var a, b, c, d, e := Cell(0, 0), Cell(0, 1), Cell(1, 1), Cell(2, 1), Cell(2, 0);
    UShapeLinks();
    Edge(Way4, U_SHAPE, a, b);
    Edge(Way4, U_SHAPE, b, c);
    Edge(Way4, U_SHAPE, c, d);
    Edge(Way4, U_SHAPE, d, e);
    Transitive(Way4, U_SHAPE, a, b, c);
    Transitive(Way4, U_SHAPE, a, c, d);
    Transitive(Way4, U_SHAPE, a, d, e);
  }

  lemma UShapeLinks()
    ensures Linked(Way4, Cell(0, 0), Cell(0, 1)) && Linked(Way4, Cell(0, 1), Cell(1, 1))
    ensures Linked(Way4, Cell(1, 1), Cell(2, 1)) && Linked(Way4, Cell(2, 1), Cell(2, 0))
  {
  }

  /** A U of five pixels, 4-linked: label 2 is looked up in a vector of two elements. */
  lemma UShapeStrays(lab: map<Cell, nat>, trees: seq<nat>, storage: seq<nat>, k: nat)
    requires ScanInv(Way4, U_SHAPE, lab, trees) && Numbered(trees, storage, k) && (k == |storage| <==> AllRoots(trees))
    ensures k == 2 && exists c :: c in U_SHAPE && lab[c] == 2
  {
    hide Connected, Root, Creators, NoneSkipped, AllRoots;
    UShapeCreators();
    UShapeConnected();
    assert MeetAt(Way4, U_SHAPE, Cell(0, 0), Cell(2, 0));
    MeetingLabels(Way4, U_SHAPE, lab, trees);
    var two: nat := 2;
    assert HasLabel(Creators(Way4, U_SHAPE), lab, two);
    assert 0 < storage[1] < k;
  }
}
