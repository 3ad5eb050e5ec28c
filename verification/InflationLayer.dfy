/** The inflation layer: its caches over every run of its callbacks, and `updateCosts` on the master grid. */
module InflationLayer {
  import Reals
  import opened CostValues
  import opened Grid
  import opened DistanceRank
  import opened Wavefront
  import opened Sweep
  import opened InflationCost
  import opened InflationSpec
  import opened InflationCaches
  import opened LevelTable

  const UINT_RANGE: int := 0x1_0000_0000

  /** Arithmetic on `unsigned int`. */
  function Unsigned(n: int): nat {
    n % UINT_RANGE
  }

  /** Every offset within the radius has a place that an `unsigned int` holds. */
  predicate OffsetsFit(radius: nat) {
    2 * radius + 2 < UINT_RANGE
  }

  /** `mx - src_x + r` wraps below zero and back: the offset's place in the level table, if that fits. */
  lemma OffsetIndex(m: nat, s: nat, radius: nat)
    requires Abs(m - s) <= radius
    ensures Unsigned(Unsigned(m - s) + (radius + 2)) == m - s + radius + 2 <==> m - s + radius + 2 < UINT_RANGE
  {
    var wraps := (m - s) / UINT_RANGE;
    assert m - s == wraps * UINT_RANGE + Unsigned(m - s);
    WrapsAway(Unsigned(m - s) + (radius + 2), wraps);
  }

  lemma WrapsAway(n: int, wraps: int)
    ensures Unsigned(n + wraps * UINT_RANGE) == Unsigned(n)
  {
  }

  /** The length of a row of cells. */
  function Span(n: int, resolution: real): real {
    n as real * resolution
  }

  /** `cellDistance`: the least number of cells that spans the distance. */
  function CellDistance(worldDist: real, resolution: real): (n: nat)
    requires resolution > 0.0
    ensures worldDist <= Span(n, resolution)
    ensures n > 0 ==> Span(n - 1, resolution) < worldDist
  {
    var cells := -((-(worldDist / resolution)).Floor);
    CellsInOrder(worldDist, cells, resolution);
    CellsInOrder(worldDist, cells - 1, resolution);
    CellsInOrder(worldDist, 0, resolution);
    if cells < 0 then 0 else cells
  }

  lemma CellsInOrder(worldDist: real, n: int, resolution: real)
    requires resolution > 0.0
    ensures worldDist / resolution <= n as real <==> worldDist <= Span(n, resolution)
  {
    var q := worldDist / resolution;
    var d := n as real - q;
    Reals.QuotientTimes(worldDist, resolution);
    assert d * resolution == Span(n, resolution) - worldDist;
    Reals.SignOfProduct(d, resolution);
  }

  class Costmap {
    var sizeX: nat
    var sizeY: nat
    var resolution: real
    var charMap: array<Cost>

    ghost predicate Valid()
      reads this
    {
      charMap.Length == sizeX * sizeY && resolution > 0.0
    }

    ghost function Contents(): (m: Raster)
      requires Valid()
      reads this, charMap
      ensures m.Valid()
    {
      Raster(sizeX, sizeY, charMap[..])
    }

    constructor (sizeX: nat, sizeY: nat, resolution: real, defaultValue: Cost)
      requires resolution > 0.0
      ensures Valid() && fresh(charMap)
      ensures this.sizeX == sizeX && this.sizeY == sizeY && this.resolution == resolution
      ensures forall i | 0 <= i < charMap.Length :: charMap[i] == defaultValue
    {
      this.sizeX, this.sizeY, this.resolution := sizeX, sizeY, resolution;
      charMap := new Cost[sizeX * sizeY](_ => defaultValue);
    }
  }

  /** What becomes of an initialisation. */
  datatype Initialisation = Ready | EmptyCacheIndexed | EmptyCacheMarked

  /** A parameter as the dynamic-parameter callback sees it. */
  datatype Parameter =
    | InflationRadius(radius: real)
    | CostScalingFactor(factor: real)
    | Enabled(flag: bool)
    | InflateUnknown(flag: bool)
    | InflateAroundUnknown(flag: bool)
    | Other

  class Layer {
    const lib: Library
    var enabled: bool
    var inflateUnknown: bool
    var inflateAroundUnknown: bool
    var needReinflation: bool
    var current: bool
    var inflationRadius: real
    var inscribedRadius: real
    var costScalingFactor: real
    var resolution: real
    var cellInflationRadius: nat
    var cachedCellInflationRadius: nat
    var cacheLength: nat
    var inflationCells: seq<seq<Entry>>
    var seen: seq<bool>
    var cachedCosts: seq<Cost>
    var cachedDistances: seq<nat>
    var distanceMatrix: seq<seq<int>>

    // -------------------------------------------------------------- what the caches mean

    ghost function Model(): CostModel
      reads `resolution, `inscribedRadius, `costScalingFactor
    {
      CostModel(lib, resolution, inscribedRadius, costScalingFactor)
    }

    ghost function Configuration(): Config
      reads this
    {
      Config(cellInflationRadius, inflateUnknown, inflateAroundUnknown, Model())
    }

    /** The distance cache belongs to the radius it is marked with, even while the layer has none. */
    ghost predicate DistancesCached()
      reads `cachedCellInflationRadius, `cachedDistances, `cachedCosts
    {
      cachedCellInflationRadius > 0 ==>
        Holds(cachedCellInflationRadius + 2, cachedDistances, Squares()) && |cachedCosts| == |cachedDistances|
    }

    /** All look-up tables belong to the current radius, resolution, footprint and scaling factor. */
    ghost predicate TablesAgree()
      reads `cellInflationRadius, `cachedCellInflationRadius, `cacheLength, `cachedDistances, `cachedCosts,
            `distanceMatrix, `resolution, `inscribedRadius, `costScalingFactor
    {
      cellInflationRadius > 0 ==>
        && cachedCellInflationRadius == cellInflationRadius
        && cacheLength == cellInflationRadius + 2
        && Model().Valid()
        && Holds(cacheLength, cachedDistances, Squares())
        && Holds(cacheLength, cachedCosts, Costs(Model()))
        && RanksDisc(cellInflationRadius + 2, distanceMatrix)
    }

    ghost predicate BinsEmpty()
      reads `cellInflationRadius, `inflationCells
    {
      cellInflationRadius > 0 ==> inflationCells == EmptyBins(cellInflationRadius)
    }

    /** What holds between any two callbacks of an initialised layer. */
    ghost predicate Valid()
      reads this
    {
      && Model().Valid()
      && cellInflationRadius == CellDistance(inflationRadius, resolution)
      && DistancesCached()
      && TablesAgree()
      && BinsEmpty()
    }

    constructor (lib: Library)
      requires lib.Sound()
      ensures this.lib == lib && cachedCellInflationRadius == 0 && cellInflationRadius == 0
      ensures inscribedRadius == 0.0
    {
      this.lib := lib;
      inflationRadius, inscribedRadius, costScalingFactor, resolution := 0.0, 0.0, 0.0, 0.0;
      enabled, inflateUnknown, inflateAroundUnknown, needReinflation, current := false, false, false, false, false;
      cellInflationRadius, cachedCellInflationRadius, cacheLength := 0, 0, 0;
      inflationCells, seen, cachedCosts, cachedDistances, distanceMatrix := [], [], [], [], [];
    }

    // -------------------------------------------------------------- callbacks

    /** What `computeCaches` demands: there is nothing to do, or the distance cache is rebuilt, or it is right. */
    ghost predicate CachesUsable(radius: nat)
      reads `cachedCellInflationRadius, `cachedDistances, `cachedCosts
    {
      radius == 0 || radius != cachedCellInflationRadius || DistancesCached()
    }

    ghost predicate CacheKept(radius: nat, distances: seq<nat>, costs: seq<Cost>)
      reads `cachedCellInflationRadius, `cachedDistances, `cachedCosts
    {
      cachedCellInflationRadius == radius && cachedDistances == distances && cachedCosts == costs
    }

    /** The tables for a radius; the distances are kept if they were made for it. */
    static method BuildTables(radius: nat, cachedRadius: nat, costs0: seq<Cost>, distances0: seq<nat>, model: CostModel)
        returns (costs: seq<Cost>, distances: seq<nat>, matrix: seq<seq<int>>, bins: seq<seq<Entry>>)
      requires radius > 0 && model.Valid()
      requires radius == cachedRadius ==> Holds(radius + 2, distances0, Squares()) && |costs0| == |distances0|
      ensures Holds(radius + 2, distances, Squares()) && Holds(radius + 2, costs, Costs(model))
      ensures |costs| == |distances| && RanksDisc(radius + 2, matrix) && bins == EmptyBins(radius)
    {
      hide Norm, Index, Rank, Holds, RanksDisc, Costs, Squares, CostModel.Valid;
      var length := radius + 2;
      costs, distances := costs0, distances0;
      if radius != cachedRadius {
        costs := Resize(costs, length * length, 0);
        distances := Resize(distances, length * length, 0);
        distances := FillDistances(distances, length);
      }
      HoldsSize(length, distances, Squares());
      costs := FillCosts(costs, distances, length, model);
      HoldsSize(length, costs, Costs(model));
      var maxDist;
      maxDist, matrix := GenerateIntegerDistances(radius);
      bins := Resize([], maxDist + 1, []);
    }

    /** Recomputes every table that depends on the radius, the footprint or the scaling factor. */
    method ComputeCaches()
      requires Model().Valid() && CachesUsable(cellInflationRadius)
      modifies `cacheLength, `cachedCosts, `cachedDistances, `cachedCellInflationRadius,
               `distanceMatrix, `inflationCells
      ensures TablesAgree() && BinsEmpty()
      ensures cellInflationRadius > 0 ==> DistancesCached()
      ensures cellInflationRadius == 0 ==>
                CacheKept(old(cachedCellInflationRadius), old(cachedDistances), old(cachedCosts))
    {
      hide Norm, Index, Rank, Holds, RanksDisc, Costs, Squares, EmptyBins, Library.Sound;
      if cellInflationRadius == 0 {
        return;
      }
      var model := CostModel(lib, resolution, inscribedRadius, costScalingFactor);
      cachedCosts, cachedDistances, distanceMatrix, inflationCells :=
        BuildTables(cellInflationRadius, cachedCellInflationRadius, cachedCosts, cachedDistances, model);
      cacheLength, cachedCellInflationRadius := cellInflationRadius + 2, cellInflationRadius;
    }

    method MatchSize(master: Costmap)
      requires master.Valid() && lib.Sound() && costScalingFactor >= 0.0
      requires CachesUsable(CellDistance(inflationRadius, master.resolution))
      modifies `resolution, `cellInflationRadius, `cacheLength, `cachedCosts, `cachedDistances,
               `cachedCellInflationRadius, `distanceMatrix, `inflationCells, `seen
      ensures resolution == master.resolution && |seen| == master.sizeX * master.sizeY
      ensures cellInflationRadius == CellDistance(inflationRadius, master.resolution)
      ensures TablesAgree() && BinsEmpty()
      ensures old(DistancesCached()) || cellInflationRadius > 0 ==> Valid()
      ensures cellInflationRadius == 0 ==>
                CacheKept(old(cachedCellInflationRadius), old(cachedDistances), old(cachedCosts))
    {
      hide Norm, Index, Rank, Holds, RanksDisc, BinCount, Costs, Squares, EmptyBins, CellDistance, Library.Sound;
      resolution := master.resolution;
      cellInflationRadius := CellDistance(inflationRadius, master.resolution);
      ComputeCaches();
      seen := seq(master.sizeX * master.sizeY, _ => false);
    }

    /** The parameters are read, the caches emptied; the radius they were built for is not forgotten. */
    method ReadParameters(radius: real, factor: real, isEnabled: bool, unknown: bool, around: bool)
      modifies `enabled, `inflationRadius, `costScalingFactor, `inflateUnknown, `inflateAroundUnknown,
               `current, `seen, `cachedDistances, `cachedCosts, `needReinflation
      ensures inflationRadius == radius && costScalingFactor == factor && enabled == isEnabled
      ensures inflateUnknown == unknown && inflateAroundUnknown == around && current && !needReinflation
      ensures seen == [] && cachedDistances == [] && cachedCosts == []
    {
      enabled, inflationRadius, costScalingFactor := isEnabled, radius, factor;
      inflateUnknown, inflateAroundUnknown := unknown, around;
      current := true;
      seen := [];
      cachedDistances := [];
      cachedCosts := [];
      needReinflation := false;
    }

    /**
     Initialisation, with the radius `r` in cells of the new parameters and `c` the radius the distance cache is
     marked with, 0 in a new layer. A second initialisation is sound iff the radius is positive and another one:
     the same radius makes `computeCaches` look up the first entry of an empty cache, and a radius of 0 leaves an
     empty cache marked as one of radius `c`.
     */
    method OnInitialize(master: Costmap, radius: real, factor: real, isEnabled: bool, unknown: bool, around: bool)
        returns (outcome: Initialisation)
      requires master.Valid() && lib.Sound() && factor >= 0.0
      modifies this
      ensures inflationRadius == radius && costScalingFactor == factor && inscribedRadius == old(inscribedRadius)
      ensures enabled == isEnabled && inflateUnknown == unknown && inflateAroundUnknown == around
      ensures current && !needReinflation
      ensures var r, c := CellDistance(radius, master.resolution), old(cachedCellInflationRadius);
              && (outcome == Ready <==> c == 0 || (r > 0 && r != c))
              && (outcome == EmptyCacheIndexed <==> c > 0 && r == c)
              && (outcome == EmptyCacheMarked <==> c > 0 && r == 0)
      ensures outcome == Ready ==> Valid()
      ensures outcome == EmptyCacheIndexed ==> cellInflationRadius == cachedCellInflationRadius && cachedDistances == []
      ensures outcome == EmptyCacheMarked ==> !DistancesCached() && !Valid()
    {
      hide Norm, Index, Rank, Holds, RanksDisc, BinCount, Costs, Squares, EmptyBins, CellDistance, Library.Sound,
           TablesAgree, BinsEmpty;
      ReadParameters(radius, factor, isEnabled, unknown, around);
      cellInflationRadius := CellDistance(inflationRadius, master.resolution);
      EmptyHoldsNothing(cachedCellInflationRadius + 2, Squares());
      if cachedCellInflationRadius > 0 && cellInflationRadius == cachedCellInflationRadius {
        return EmptyCacheIndexed;
      }
      MatchSize(master);
      outcome := if cellInflationRadius == 0 && cachedCellInflationRadius > 0 then EmptyCacheMarked else Ready;
    }

    /** The costs depend on the layer's resolution, the radius on the map's: the two must give the same radius. */
    method OnFootprintChanged(master: Costmap, inscribed: real)
      requires Valid() && master.Valid()
      modifies `inscribedRadius, `cellInflationRadius, `cacheLength, `cachedCosts, `cachedDistances,
               `cachedCellInflationRadius, `distanceMatrix, `inflationCells, `needReinflation
      ensures inscribedRadius == inscribed && needReinflation && TablesAgree() && BinsEmpty()
      ensures cellInflationRadius == CellDistance(inflationRadius, master.resolution)
      ensures Valid() <==> CellDistance(inflationRadius, master.resolution) == CellDistance(inflationRadius, resolution)
    {
      hide Norm, Index, Rank, Holds, RanksDisc, BinCount, Costs, Squares, EmptyBins, CellDistance, Library.Sound;
      inscribedRadius := inscribed;
      cellInflationRadius := CellDistance(inflationRadius, master.resolution);
      ComputeCaches();
      needReinflation := true;
    }

    method Reset(master: Costmap)
      requires Valid() && master.Valid()
      modifies `resolution, `cellInflationRadius, `cacheLength, `cachedCosts, `cachedDistances,
               `cachedCellInflationRadius, `distanceMatrix, `inflationCells, `seen, `current, `needReinflation
      ensures Valid() && !current && needReinflation
    {
      hide Norm, Index, Rank, Holds, RanksDisc, BinCount, Costs, Squares, EmptyBins, CellDistance, Library.Sound;
      MatchSize(master);
      current := false;
      needReinflation := true;
    }

    /** One changed parameter; tells whether the tables no longer fit. */
    method ApplyParameter(parameter: Parameter) returns (recompute: bool)
      requires Model().Valid() && DistancesCached()
      requires parameter.CostScalingFactor? ==> parameter.factor >= 0.0
      modifies `inflationRadius, `costScalingFactor, `enabled, `inflateUnknown, `inflateAroundUnknown,
               `needReinflation, `current
      ensures Model().Valid() && DistancesCached()
      ensures old(Valid()) && !recompute ==> Valid()
      ensures recompute <==> inflationRadius != old(inflationRadius) || costScalingFactor != old(costScalingFactor)
      ensures needReinflation <==>
                (old(needReinflation) || recompute || enabled != old(enabled) ||
                 inflateUnknown != old(inflateUnknown) || inflateAroundUnknown != old(inflateAroundUnknown))
      ensures current <==> old(current) && enabled == old(enabled)
      ensures parameter.InflationRadius? ==> inflationRadius == parameter.radius
      ensures parameter.CostScalingFactor? ==> costScalingFactor == parameter.factor
      ensures parameter.Enabled? ==> enabled == parameter.flag
      ensures parameter.InflateUnknown? ==> inflateUnknown == parameter.flag
      ensures parameter.InflateAroundUnknown? ==> inflateAroundUnknown == parameter.flag
    {
      hide Norm, Index, Rank, Holds, RanksDisc, BinCount, Costs, Squares, EmptyBins, CellDistance, Library.Sound;
      recompute := false;
      match parameter {
        case InflationRadius(radius) =>
          if inflationRadius != radius {
            inflationRadius, needReinflation, recompute := radius, true, true;
          }
        case CostScalingFactor(factor) =>
          if costScalingFactor != factor {
            costScalingFactor, needReinflation, recompute := factor, true, true;
          }
        case Enabled(flag) =>
          if enabled != flag {
            enabled, needReinflation, current := flag, true, false;
          }
        case InflateUnknown(flag) =>
          if inflateUnknown != flag {
            inflateUnknown, needReinflation := flag, true;
          }
        case InflateAroundUnknown(flag) =>
          if inflateAroundUnknown != flag {
            inflateAroundUnknown, needReinflation := flag, true;
          }
        case Other =>
      }
    }

    /** Changes are collected first; one recomputation at the end brings every table up to date. */
    method DynamicParametersCallback(master: Costmap, parameters: seq<Parameter>)
      requires Valid() && master.Valid()
      requires forall p <- parameters :: p.CostScalingFactor? ==> p.factor >= 0.0
      modifies this
      ensures Valid() && inscribedRadius == old(inscribedRadius)
      ensures needReinflation || (inflationRadius == old(inflationRadius) &&
                                  costScalingFactor == old(costScalingFactor) && enabled == old(enabled) &&
                                  inflateUnknown == old(inflateUnknown) &&
                                  inflateAroundUnknown == old(inflateAroundUnknown))
    {
      hide Norm, Index, Rank, Holds, RanksDisc, BinCount, Costs, Squares, EmptyBins, CellDistance, Library.Sound,
           TablesAgree, BinsEmpty;
      var needCacheRecompute := false;
      for i := 0 to |parameters|
        invariant Model().Valid() && DistancesCached() && inscribedRadius == old(inscribedRadius)
        invariant !needCacheRecompute ==> Valid()
        invariant needReinflation || (inflationRadius == old(inflationRadius) &&
                                      costScalingFactor == old(costScalingFactor) && enabled == old(enabled) &&
                                      inflateUnknown == old(inflateUnknown) &&
                                      inflateAroundUnknown == old(inflateAroundUnknown))
      {
        assert parameters[i] in parameters;
        var recompute := ApplyParameter(parameters[i]);
        needCacheRecompute := needCacheRecompute || recompute;
      }
      if needCacheRecompute {
        MatchSize(master);
      }
    }

    // -------------------------------------------------------------- one inflation

    ghost predicate SeenIs(w: nat, h: nat, owner: Owners)
      reads `seen
    {
      |seen| == w * h &&
      forall c | InGrid(w, h, c) ::
        0 <= Index(w, c.x, c.y) < |seen| && (seen[Index(w, c.x, c.y)] <==> c in owner)
    }

    /** `distanceLookup`, squared. */
    method LookUpDistance(mx: nat, my: nat, srcX: nat, srcY: nat) returns (distance: nat)
      requires TablesAgree() && cellInflationRadius > 0
      requires Abs(mx - srcX) <= cellInflationRadius + 1 && Abs(my - srcY) <= cellInflationRadius + 1
      ensures distance == D2(Cell(mx, my), Cell(srcX, srcY))
    {
      hide Norm, Index, Holds, RanksDisc, Rank, Library.Sound;
      distance := DistanceLookup(cacheLength, cachedDistances, mx, my, srcX, srcY);
    }

    /** The level table at an offset, indexed with unsigned arithmetic. */
    method LookUpLevel(mx: nat, my: nat, srcX: nat, srcY: nat) returns (level: int)
      requires TablesAgree() && cellInflationRadius > 0 && OffsetsFit(cellInflationRadius)
      requires D2(Cell(mx, my), Cell(srcX, srcY)) <= cellInflationRadius * cellInflationRadius
      ensures level == Rank(D2(Cell(mx, my), Cell(srcX, srcY)))
    {
      hide Norm, Index, Holds, RanksDisc, Rank, Library.Sound;
      ghost var e := Entry(Cell(mx, my), Cell(srcX, srcY));
      var r := cellInflationRadius + 2;
      WithinBox(e.cell, e.src, cellInflationRadius);
      OffsetIndex(mx, srcX, cellInflationRadius);
      OffsetIndex(my, srcY, cellInflationRadius);
      LevelOfOffset(cellInflationRadius, distanceMatrix, e);
      level := distanceMatrix[Unsigned(Unsigned(mx - srcX) + r)][Unsigned(Unsigned(my - srcY) + r)];
    }

    /** `enqueue`: unless seen or out of reach, the cell joins the bin of its distance. */
    method Enqueue(index: nat, mx: nat, my: nat, srcX: nat, srcY: nat, ghost g: Problem, ghost owner: Owners)
      requires TablesAgree() && g.radius == cellInflationRadius > 0 && OffsetsFit(cellInflationRadius)
      requires |inflationCells| == BinCount(cellInflationRadius)
      requires InGrid(g.w, g.h, Cell(mx, my)) && index == Index(g.w, mx, my) && SeenIs(g.w, g.h, owner)
      requires Abs(mx - srcX) <= cellInflationRadius + 1 && Abs(my - srcY) <= cellInflationRadius + 1
      modifies `inflationCells
      ensures |inflationCells| == |old(inflationCells)|
      ensures inflationCells == Sweep.Enqueue(g, owner, old(inflationCells), Entry(Cell(mx, my), Cell(srcX, srcY)))
    {
      hide Norm, Index, Rank, TablesAgree, SeenIs, BinCount;
      ghost var e := Entry(Cell(mx, my), Cell(srcX, srcY));
      SeenAt(g.w, g.h, owner, e.cell);
      if !seen[index] {
        var distance := LookUpDistance(mx, my, srcX, srcY);
        if distance > cellInflationRadius * cellInflationRadius {
          return;
        }
        BinExists(g, e);
        var dist := LookUpLevel(mx, my, srcX, srcY);
        inflationCells := inflationCells[dist := inflationCells[dist] + [Entry(Cell(mx, my), Cell(srcX, srcY))]];
      }
    }

    /** A neighbour outside the map is not offered anything. */
    method EnqueueInside(sizeX: nat, sizeY: nat, index: int, mx: int, my: int, srcX: nat, srcY: nat,
                         ghost g: Problem, ghost owner: Owners)
      requires g.w == sizeX && g.h == sizeY && index == Index(g.w, mx, my)
      requires TablesAgree() && g.radius == cellInflationRadius > 0 && OffsetsFit(cellInflationRadius)
      requires SeenIs(g.w, g.h, owner) && |inflationCells| == BinCount(cellInflationRadius)
      requires Abs(mx - srcX) <= cellInflationRadius + 1 && Abs(my - srcY) <= cellInflationRadius + 1
      modifies `inflationCells
      ensures |inflationCells| == |old(inflationCells)|
      ensures inflationCells == Sweep.Enqueue(g, owner, old(inflationCells), Entry(Cell(mx, my), Cell(srcX, srcY)))
    {
      hide Norm, Index, Rank, BinCount, TablesAgree, SeenIs, Sweep.Enqueue;
      if 0 <= mx < sizeX && 0 <= my < sizeY {
        IndexInRange(g.w, g.h, mx, my);
        Enqueue(index, mx, my, srcX, srcY, g, owner);
      } else {
        OutsideIgnored(g, owner, inflationCells, Entry(Cell(mx, my), Cell(srcX, srcY)));
      }
    }

    /** The four neighbours of a settled cell are offered its obstacle. */
    method OfferNeighbours(sizeX: nat, sizeY: nat, index: nat, mx: nat, my: nat, srcX: nat, srcY: nat,
                           ghost g: Problem, ghost owner: Owners)
      requires g.w == sizeX && g.h == sizeY && index == Index(g.w, mx, my)
      requires TablesAgree() && g.radius == cellInflationRadius > 0 && OffsetsFit(cellInflationRadius)
      requires SeenIs(g.w, g.h, owner) && |inflationCells| == BinCount(cellInflationRadius)
      requires Abs(mx - srcX) <= cellInflationRadius && Abs(my - srcY) <= cellInflationRadius
      modifies `inflationCells
      ensures |inflationCells| == |old(inflationCells)|
      ensures inflationCells == Offer(g, owner, old(inflationCells), Cell(mx, my), Cell(srcX, srcY))
    {
      hide Norm, Index, Rank, BinCount, Offer, TablesAgree, SeenIs, Sweep.Enqueue;
      ghost var b0, src := inflationCells, Cell(srcX, srcY);
      IndexNeighbours(g.w, mx, my);
      EnqueueInside(sizeX, sizeY, index - 1, mx - 1, my, srcX, srcY, g, owner);
      ghost var b1 := inflationCells;
      EnqueueInside(sizeX, sizeY, index - sizeX, mx, my - 1, srcX, srcY, g, owner);
      ghost var b2 := inflationCells;
      EnqueueInside(sizeX, sizeY, index + 1, mx + 1, my, srcX, srcY, g, owner);
      ghost var b3 := inflationCells;
      EnqueueInside(sizeX, sizeY, index + sizeX, mx, my + 1, srcX, srcY, g, owner);
      OfferInOrder(g, owner, b0, b1, b2, b3, inflationCells, Cell(mx, my), src);
    }

    /** The layer and the master grid are where the sweep is in state `st`. */
    ghost predicate Tracks(master: Costmap, m: Raster, box: Box, st: State)
      reads this, master, master.charMap
    {
      && master.Valid() && m.Valid() && master.sizeX == m.w && master.sizeY == m.h
      && TablesAgree() && cellInflationRadius > 0 && OffsetsFit(cellInflationRadius) && Model().Valid()
      && inflationCells == st.bins && |st.bins| == BinCount(cellInflationRadius)
      && SeenIs(m.w, m.h, st.owner)
      && Good(ProblemOf(Configuration(), m, box), st)
      && Written(Configuration(), st.owner, m, box, master.Contents())
    }

    /** The cost of a settled cell goes into the master grid if the cell is in the update box. */
    method WriteCost(master: Costmap, index: nat, mx: nat, my: nat, cost: Cost, box: Box,
                     ghost m: Raster, ghost owner: Owners, ghost src: Cell)
      requires master.Valid() && m.Valid() && master.sizeX == m.w && master.sizeY == m.h && Model().Valid()
      requires m.Has(Cell(mx, my)) && index == Index(m.w, mx, my) && Cell(mx, my) !in owner
      requires cost == Model().Cost(D2(Cell(mx, my), src))
      requires Written(Configuration(), owner, m, box, master.Contents())
      modifies master.charMap
      ensures Written(Configuration(), owner[Cell(mx, my) := src], m, box, master.Contents())
    {
      hide Norm, Index, CostModel.Cost, CostModel.Valid, CellAfter;
      IndexInRange(m.w, m.h, mx, my);
      ghost var r := master.Contents();
      var oldCost := master.charMap[index];
      var newCost := oldCost;
      if mx >= box.minI && my >= box.minJ && mx < box.maxI && my < box.maxJ {
        if oldCost == NO_INFORMATION &&
           (if inflateUnknown then cost > FREE_SPACE else cost >= INSCRIBED_INFLATED_OBSTACLE)
        {
          newCost := cost;
        } else {
          newCost := Max(oldCost, cost);
        }
      }
      WrittenNext(Configuration(), owner, m, box, r, Cell(mx, my), src, newCost);
      master.charMap[index] := newCost;
      assert master.Contents() == r.(cells := r.cells[index := newCost]);
    }

    method MarkSeen(index: nat, ghost w: nat, ghost h: nat, ghost owner: Owners, ghost c: Cell, ghost src: Cell)
      requires SeenIs(w, h, owner) && InGrid(w, h, c) && index == Index(w, c.x, c.y)
      modifies `seen
      ensures SeenIs(w, h, owner[c := src])
    {
      hide Index;
      IndexInRange(w, h, c.x, c.y);
      seen := seen[index := true];
      forall d | InGrid(w, h, d)
        ensures 0 <= Index(w, d.x, d.y) < |seen| && (seen[Index(w, d.x, d.y)] <==> d in owner[c := src])
      {
        IndexInRange(w, h, d.x, d.y);
        IndexInjective(w, d.x, d.y, c.x, c.y);
      }
    }

    lemma SeenAt(w: nat, h: nat, owner: Owners, c: Cell)
      requires SeenIs(w, h, owner) && InGrid(w, h, c)
      ensures 0 <= Index(w, c.x, c.y) < |seen| && (seen[Index(w, c.x, c.y)] <==> c in owner)
    {
    }

    method LookUpCost(mx: nat, my: nat, srcX: nat, srcY: nat) returns (cost: Cost)
      requires TablesAgree() && cellInflationRadius > 0
      requires Abs(mx - srcX) <= cellInflationRadius && Abs(my - srcY) <= cellInflationRadius
      ensures Model().Valid() && cost == Model().Cost(D2(Cell(mx, my), Cell(srcX, srcY)))
    {
      hide Norm, Index, Holds, RanksDisc, Rank, BinCount, Library.Sound, CostModel.Cost;
      cost := CostLookup(cacheLength, cachedCosts, Model(), mx, my, srcX, srcY);
    }

    /** What the inner loop does with the entry it has reached. */
    method ProcessEntry(master: Costmap, box: Box, k: nat, i: nat, ghost m: Raster, ghost st: State)
      returns (ghost st': State)
      requires Tracks(master, m, box, st) && st.bin == k < |inflationCells| && st.pos == i < |inflationCells[k]|
      modifies `seen, `inflationCells, master.charMap
      ensures |st.bins| == BinCount(cellInflationRadius) && st' == Step(ProblemOf(Configuration(), m, box), st)
      ensures Tracks(master, m, box, st')
    {
      hide Norm, Index, Rank, BinCount, Good, Written, TablesAgree, SeenIs, CostModel.Cost, CostModel.Valid, Offer,
           Costmap.Contents, Sources, InflationSpec.Start;
      ghost var g := ProblemOf(Configuration(), m, box);
      PoppedInMap(g, st);
      StepKeepsGood(g, st);
      st' := Step(g, st);
      var cell := inflationCells[k][i];
      var mx: nat, my: nat, sx: nat, sy: nat := cell.cell.x, cell.cell.y, cell.src.x, cell.src.y;
      SeenAt(m.w, m.h, st.owner, cell.cell);
      var index := Index(master.sizeX, mx, my);
      if seen[index] {
        return;
      }
      WithinBox(cell.cell, cell.src, cellInflationRadius);
      MarkSeen(index, m.w, m.h, st.owner, cell.cell, cell.src);
      var cost := LookUpCost(mx, my, sx, sy);
      WriteCost(master, index, mx, my, cost, box, m, st.owner, cell.src);
      OfferNeighbours(master.sizeX, master.sizeY, index, mx, my, sx, sy, g, st'.owner);
    }

    /** A swept bin is emptied; every cell in it is settled by now. */
    method LeaveBin(master: Costmap, box: Box, k: nat, ghost m: Raster, ghost st: State) returns (ghost st': State)
      requires Tracks(master, m, box, st) && st.bin == k < |inflationCells| && st.pos >= |inflationCells[k]|
      modifies `inflationCells
      ensures |st.bins| == BinCount(cellInflationRadius) && st' == Step(ProblemOf(Configuration(), m, box), st)
      ensures Tracks(master, m, box, st')
    {
      hide Norm, Index, Rank, BinCount, Good, Written, TablesAgree, SeenIs, CostModel.Valid, Offer,
           Costmap.Contents, Sources;
      ghost var g := ProblemOf(Configuration(), m, box);
      StepKeepsGood(g, st);
      st' := Step(g, st);
      inflationCells := inflationCells[k := []];
    }

    /** The two nested loops over the bins run to the end of the functional sweep. */
    method SweepBins(master: Costmap, box: Box, ghost m: Raster, ghost st0: State)
      requires Tracks(master, m, box, st0) && st0.bin == 0 && st0.pos == 0
      modifies `seen, `inflationCells, master.charMap
      ensures Good(ProblemOf(Configuration(), m, box), st0)
      ensures Tracks(master, m, box, Run(ProblemOf(Configuration(), m, box), st0))
    {
      hide Norm, Index, Rank, BinCount, Good, Written, TablesAgree, SeenIs, CostModel.Valid, Costmap.Contents,
           Sources, Step, Run, Unsettled, EntriesLeft, BinsLeft;
      ghost var g := ProblemOf(Configuration(), m, box);
      ghost var st := st0;
      var k := 0;
      while k < |inflationCells|
        invariant Tracks(master, m, box, st) && st.bin == k && st.pos == 0 && k <= |inflationCells|
        invariant g == ProblemOf(Configuration(), m, box) && Good(g, st0) && Run(g, st) == Run(g, st0)
        decreases |inflationCells| - k
      {
        label Bin:
        var i := 0;
        while i < |inflationCells[k]|
          invariant Tracks(master, m, box, st) && st.bin == k < |inflationCells| && st.pos == i
          invariant g == ProblemOf(Configuration(), m, box) && Run(g, st) == Run(g, st0)
          invariant |inflationCells| == |old@Bin(inflationCells)|
          decreases Unsettled(g, st), EntriesLeft(st)
        {
          RunUnfold(g, st);
          EntryProgress(g, st);
          st := ProcessEntry(master, box, k, i, m, st);
          i := i + 1;
        }
        RunUnfold(g, st);
        BinProgress(g, st);
        st := LeaveBin(master, box, k, m, st);
        k := k + 1;
      }
      RunUnfold(g, st);
    }

    predicate IsObstacleCost(cost: Cost)
      reads `inflateAroundUnknown
    {
      cost == LETHAL_OBSTACLE || (inflateAroundUnknown && cost == NO_INFORMATION)
    }

    /** The obstacle cells of one row of the window. */
    method ScanOneRow(master: Costmap, win: Box, j: nat) returns (row: seq<Entry>)
      requires master.Valid() && 0 <= win.minI && win.maxI <= master.sizeX && 0 <= win.minJ && win.maxJ <= master.sizeY
      requires j < master.sizeY
      ensures row == ScanRow(Configuration(), master.Contents(), win, j, win.maxI)
    {
      hide Norm, Index, ScanRow, CostModel.Valid;
      ghost var m, cfg := master.Contents(), Configuration();
      ScanNone(cfg, m, win);
      row := [];
      if win.minI < win.maxI {
        for i := win.minI to win.maxI
          invariant row == ScanRow(cfg, m, win, j, i)
        {
          ScanRowNext(cfg, m, win, j, i);
          IndexInRange(master.sizeX, master.sizeY, i, j);
          var cost := master.charMap[Index(master.sizeX, i, j)];
          if IsObstacleCost(cost) {
            row := row + [Entry(Cell(i, j), Cell(i, j))];
          }
        }
      }
    }

    /** Every obstacle cell of the window goes into the first bin, row by row. */
    method ScanWindow(master: Costmap, win: Box)
      requires master.Valid() && BinsEmpty() && cellInflationRadius > 0
      requires 0 <= win.minI && win.maxI <= master.sizeX && 0 <= win.minJ && win.maxJ <= master.sizeY
      modifies `inflationCells
      ensures |EmptyBins(cellInflationRadius)| > 0
      ensures inflationCells == EmptyBins(cellInflationRadius)
                                [0 := ScanRows(Configuration(), master.Contents(), win, win.maxJ)]
    {
      hide Norm, Index, Rank, ScanRow, ScanRows, CostModel.Valid;
      ghost var m, cfg := master.Contents(), Configuration();
      ScanNone(cfg, m, win);
      var obsBin: seq<Entry> := [];
      if win.minJ < win.maxJ {
        for j := win.minJ to win.maxJ
          invariant obsBin == ScanRows(cfg, m, win, j) && inflationCells == old(inflationCells)
        {
          ScanRowsNext(cfg, m, win, j);
          var row := ScanOneRow(master, win, j);
          obsBin := obsBin + row;
        }
      }
      inflationCells := inflationCells[0 := obsBin];
    }

    /** One inflation of the master grid over the update box. */
    method UpdateCosts(master: Costmap, minI: int, minJ: int, maxI: int, maxJ: int)
      requires Valid() && master.Valid() && OffsetsFit(cellInflationRadius)
      modifies `seen, `inflationCells, `current, master.charMap
      ensures Valid()
      ensures !enabled || cellInflationRadius == 0 ==> master.charMap[..] == old(master.charMap[..])
      ensures current <==> old(current) || (enabled && cellInflationRadius > 0)
      ensures enabled && cellInflationRadius > 0 ==>
                Inflated(Configuration(), old(master.Contents()), Box(minI, minJ, maxI, maxJ), master.Contents())
    {
      hide Norm, Index, Rank, Library.Sound, Holds, RanksDisc, Costs, Squares, Good, CellDistance, Run, BinCount,
           TablesAgree, EmptyBins, ScanRows, CostModel.Cost, Sources;
      if !enabled || cellInflationRadius == 0 {
        return;
      }
      ghost var m, cfg, box := master.Contents(), Configuration(), Box(minI, minJ, maxI, maxJ);
      var sizeX, sizeY := master.sizeX, master.sizeY;
      seen := seq(sizeX * sizeY, _ => false);
      var win := Box(Max(0, minI - cellInflationRadius), Max(0, minJ - cellInflationRadius),
                     Min(sizeX, maxI + cellInflationRadius), Min(sizeY, maxJ + cellInflationRadius));
      ScanWindow(master, win);
      ghost var st := InflationSpec.Start(cfg, m, box);
      NothingSettled(m.w, m.h);
      NothingWritten(cfg, m, box);
      InitialShape(cfg, m, box);
      SweepBins(master, Box(minI, minJ, maxI, maxJ), m, st);
      RunEndsEmpty(ProblemOf(cfg, m, box), st);
      current := true;
    }

    lemma NothingSettled(w: nat, h: nat)
      requires seen == seq(w * h, _ => false)
      ensures SeenIs(w, h, map[])
    {
      hide Index;
      forall c | InGrid(w, h, c)
        ensures 0 <= Index(w, c.x, c.y) < |seen|
      {
        IndexInRange(w, h, c.x, c.y);
      }
    }
  }

  lemma NothingWritten(cfg: Config, m: Raster, box: Box)
    requires m.Valid() && cfg.costs.Valid()
    ensures Written(cfg, map[], m, box, m)
  {
    hide Index;
  }

  lemma InitialShape(cfg: Config, m: Raster, box: Box)
    requires m.Valid()
    ensures var win, st := Window(cfg, m, box), InflationSpec.Start(cfg, m, box);
            && |EmptyBins(cfg.radius)| == BinCount(cfg.radius) > 0 && |st.bins| == BinCount(cfg.radius)
            && st.bins == EmptyBins(cfg.radius)[0 := ScanRows(cfg, m, win, win.maxJ)]
            && st.bin == 0 && st.pos == 0 && st.owner == map[]
  {
    hide Rank, Norm, Index, Good;
  }

  /** The level table read at an offset within the radius gives the bin of that distance. */
  lemma LevelOfOffset(radius: nat, table: seq<seq<int>>, e: Entry)
    requires RanksDisc(radius + 2, table) && D2(e.cell, e.src) <= radius * radius
    ensures var r, x, y := radius + 2, e.cell.x - e.src.x, e.cell.y - e.src.y;
            0 <= x + r < |table| && 0 <= y + r < |table[x + r]| && table[x + r][y + r] == Rank(D2(e.cell, e.src))
  {
    var r, p := radius + 2, Cell(e.cell.x - e.src.x, e.cell.y - e.src.y);
    assert (radius + 2) * (radius + 2) == radius * radius + 4 * radius + 4;
    hide Norm, Rank;
    assert InDisc(r, p);
    DiscInSquare(r, p);
    assert At(r, table, p) == Rank(D2(e.cell, e.src));
  }
}
