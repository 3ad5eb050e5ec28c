/** The square look-up tables of the inflation layer, filled in place row by row. */
module InflationCaches {
  import Reals
  import opened CostValues
  import opened Grid
  import opened InflationCost

  /** Entry (i, j) of a square table of side `side`, stored as one vector, is `f(i, j)`. */
  ghost predicate Holds<T>(side: nat, t: seq<T>, f: (nat, nat) -> T) {
    FilledTo(side, t, f, side, 0)
  }

  ghost predicate FilledTo<T>(side: nat, t: seq<T>, f: (nat, nat) -> T, i: nat, j: nat) {
    && |t| == side * side
    && forall a: nat, b: nat | a < side && b < side && (a < i || (a == i && b < j)) ::
         0 <= Index(side, b, a) < |t| && t[Index(side, b, a)] == f(a, b)
  }

  lemma FillNext<T>(side: nat, t: seq<T>, f: (nat, nat) -> T, i: nat, j: nat)
    requires FilledTo(side, t, f, i, j) && i < side && j < side
    ensures 0 <= Index(side, j, i) < |t|
    ensures FilledTo(side, t[Index(side, j, i) := f(i, j)], f, i, j + 1)
  {
    IndexInRange(side, side, j, i);
    var t' := t[Index(side, j, i) := f(i, j)];
    forall a: nat, b: nat | a < side && b < side && (a < i || (a == i && b < j + 1))
      ensures 0 <= Index(side, b, a) < |t'| && t'[Index(side, b, a)] == f(a, b)
    {
      IndexInjective(side, b, a, j, i);
    }
  }

  lemma NextRow<T>(side: nat, t: seq<T>, f: (nat, nat) -> T, i: nat)
    requires FilledTo(side, t, f, i, side)
    ensures FilledTo(side, t, f, i + 1, 0)
  {
  }

  lemma Lookup<T>(side: nat, t: seq<T>, f: (nat, nat) -> T, i: nat, j: nat)
    requires Holds(side, t, f) && i < side && j < side
    ensures 0 <= Index(side, j, i) < |t| && t[Index(side, j, i)] == f(i, j)
  {
  }

  lemma HoldsSize<T>(side: nat, t: seq<T>, f: (nat, nat) -> T)
    requires Holds(side, t, f)
    ensures |t| == side * side
  {
  }

  lemma EmptyHoldsNothing<T>(side: nat, f: (nat, nat) -> T)
    ensures side > 0 ==> !Holds(side, [], f)
  {
    if side > 0 {
      assert side * side > 0;
    }
  }

  /** `std::vector::resize`. */
  function Resize<T>(t: seq<T>, n: nat, fill: T): (r: seq<T>)
    ensures |r| == n
  {
    if n <= |t| then t[..n] else t + seq(n - |t|, _ => fill)
  }

  ghost function Squares(): (nat, nat) -> nat {
    (i, j) => Norm(i, j)
  }

  ghost function Costs(costs: CostModel): (nat, nat) -> Cost
    requires costs.Valid()
  {
    (i, j) => costs.Cost(Norm(i, j))
  }

  /** The squares of the cached distances: `hypot(i, j)` squared. */
  method FillDistances(t0: seq<nat>, side: nat) returns (t: seq<nat>)
    requires |t0| == side * side
    ensures Holds(side, t, Squares())
  {
    hide Norm, Index;
    t := t0;
    var i := 0;
    while i < side
      invariant i <= side && FilledTo(side, t, Squares(), i, 0)
    {
      var j := 0;
      while j < side
        invariant j <= side && FilledTo(side, t, Squares(), i, j)
      {
        FillNext(side, t, Squares(), i, j);
        t := t[Index(side, j, i) := Norm(i, j)];
        j := j + 1;
      }
      NextRow(side, t, Squares(), i);
      i := i + 1;
    }
  }

  /** The costs of the cached distances. */
  method FillCosts(t0: seq<Cost>, distances: seq<nat>, side: nat, costs: CostModel) returns (t: seq<Cost>)
    requires |t0| == side * side && costs.Valid() && Holds(side, distances, Squares())
    ensures Holds(side, t, Costs(costs))
  {
    hide Norm, Index;
    t := t0;
    var i := 0;
    while i < side
      invariant i <= side && FilledTo(side, t, Costs(costs), i, 0)
    {
      var j := 0;
      while j < side
        invariant j <= side && FilledTo(side, t, Costs(costs), i, j)
      {
        Lookup(side, distances, Squares(), i, j);
        FillNext(side, t, Costs(costs), i, j);
        t := t[Index(side, j, i) := costs.Cost(distances[Index(side, j, i)])];
        j := j + 1;
      }
      NextRow(side, t, Costs(costs), i);
      i := i + 1;
    }
  }

  /** All the costs that a layer of this radius caches are defined. */
  ghost predicate CacheFits(costs: CostModel, radius: nat) {
    forall i: nat, j: nat | i < radius + 2 && j < radius + 2 :: costs.Fits(Norm(i, j))
  }

  lemma CornerIsFarthest(i: nat, j: nat, n: nat)
    requires i <= n && j <= n
    ensures Norm(i, j) <= Norm(n, n)
  {
    AbsBound(i, n);
    AbsBound(j, n);
  }

  /** The source accepts any scaling factor: the cached costs fit iff it is not negative or the corner's cost fits. */
  lemma CacheFitsIff(costs: CostModel, radius: nat)
    requires costs.lib.Sound() && costs.resolution > 0.0
    ensures CacheFits(costs, radius) <==> costs.scaling >= 0.0 || costs.Fits(Norm(radius + 1, radius + 1))
  {
    hide Norm, CostModel.Fits, Library.Sound;
    if costs.scaling >= 0.0 || costs.Fits(Norm(radius + 1, radius + 1)) {
      forall i: nat, j: nat | i < radius + 2 && j < radius + 2
        ensures costs.Fits(Norm(i, j))
      {
        CornerIsFarthest(i, j, radius + 1);
        costs.FitsNearer(Norm(i, j), Norm(radius + 1, radius + 1));
      }
    }
  }

  /** For every negative factor there is a radius from which on the cached costs do not fit. */
  lemma SomeCacheOverflows(costs: CostModel) returns (least: nat)
    requires costs.lib.Sound() && costs.lib.Grows() && costs.resolution > 0.0 && costs.scaling < 0.0
    ensures forall radius: nat | radius >= least :: !CacheFits(costs, radius)
  {
    hide Norm, CostModel.Fits, Library.Sound;
    least := costs.FarEnough();
    forall radius: nat | radius >= least
      ensures !CacheFits(costs, radius)
    {
      AxisNorm(least);
      var zero := 0;
      assert !costs.Fits(Norm(least, zero));
    }
  }

  lemma AxisNorm(n: nat)
    ensures Norm(n, 0) == n * n
  {
  }

  /** An inflation radius below the inscribed one: a negative factor does no harm. */
  lemma SmallCacheFits(lib: Library)
    requires lib.Sound()
    ensures CacheFits(CostModel(lib, 0.05, 0.2, -1.0), 1)
  {
    var costs, two, one := CostModel(lib, 0.05, 0.2, -1.0), 2, 1;
    CacheFitsIff(costs, one);
    RootOfEight(lib);
    assert Norm(two, two) == 8;
  }

  lemma RootOfEight(lib: Library)
    requires lib.Sound()
    ensures lib.sqrt(8) <= 3.0
  {
    var r, three := lib.sqrt(8), 3.0;
    assert r * r == 8.0;
    Reals.SquaresInOrder(r, three);
  }

  lemma MirroredNorm(x: int, y: int)
    ensures Norm(Abs(x), Abs(y)) == Norm(x, y)
  {
  }

  /** `distanceLookup`, squared: the offset's sign does not matter. */
  function DistanceLookup(side: nat, t: seq<nat>, mx: nat, my: nat, srcX: nat, srcY: nat): (d: nat)
    requires Holds(side, t, Squares()) && Abs(mx - srcX) < side && Abs(my - srcY) < side
    ensures d == D2(Cell(mx, my), Cell(srcX, srcY))
  {
    hide Norm, Index;
    var dx := if mx > srcX then mx - srcX else srcX - mx;
    var dy := if my > srcY then my - srcY else srcY - my;
    Lookup(side, t, Squares(), dx, dy);
    MirroredNorm(mx - srcX, my - srcY);
    t[Index(side, dy, dx)]
  }

  /** `costLookup`. */
  function CostLookup(side: nat, t: seq<Cost>, ghost costs: CostModel, mx: nat, my: nat, srcX: nat, srcY: nat)
    : (c: Cost)
    requires costs.Valid() && Holds(side, t, Costs(costs)) && Abs(mx - srcX) < side && Abs(my - srcY) < side
    ensures c == costs.Cost(D2(Cell(mx, my), Cell(srcX, srcY)))
  {
    hide Norm, Index, CostModel.Cost;
    var dx := if mx > srcX then mx - srcX else srcX - mx;
    var dy := if my > srcY then my - srcY else srcY - my;
    Lookup(side, t, Costs(costs), dx, dy);
    MirroredNorm(mx - srcX, my - srcY);
    t[Index(side, dy, dx)]
  }
}
