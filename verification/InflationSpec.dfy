/** What one `updateCosts` does to the master costmap, as a function of the map and the update box. */
module InflationSpec {
  import opened CostValues
  import opened Grid
  import opened Wavefront
  import opened WavefrontEnd
  import opened Sweep
  import opened InflationCost

  /** A costmap: `h` rows of `w` cells. */
  datatype Raster = Raster(w: nat, h: nat, cells: seq<Cost>) {
    ghost predicate Valid() {
      |cells| == w * h
    }

    predicate Has(c: Cell) {
      InGrid(w, h, c)
    }

    ghost predicate SameShape(m': Raster) {
      Valid() && m'.Valid() && m'.w == w && m'.h == h
    }

    function At(c: Cell): Cost
      requires Valid() && Has(c)
    {
      IndexInRange(w, h, c.x, c.y);
      cells[Index(w, c.x, c.y)]
    }
  }

  /** Columns `minI` to `maxI` exclusive, rows `minJ` to `maxJ` exclusive. */
  datatype Box = Box(minI: int, minJ: int, maxI: int, maxJ: int) {
    predicate Contains(c: Cell) {
      minI <= c.x < maxI && minJ <= c.y < maxJ
    }
  }

  datatype Config = Config(radius: nat, inflateUnknown: bool, inflateAroundUnknown: bool, costs: CostModel) {
    predicate IsObstacle(cost: Cost) {
      cost == LETHAL_OBSTACLE || (inflateAroundUnknown && cost == NO_INFORMATION)
    }

    /** The cost written into a settled cell of the update box. */
    function NewCost(was: Cost, cost: Cost): Cost {
      if was == NO_INFORMATION && (if inflateUnknown then cost > FREE_SPACE else cost >= INSCRIBED_INFLATED_OBSTACLE)
      then cost
      else if was < cost then cost else was
    }
  }

  /** The box scanned for obstacles: the update box grown by the radius, clipped to the map. */
  function Window(cfg: Config, m: Raster, box: Box): Box {
    Box(Max(0, box.minI - cfg.radius), Max(0, box.minJ - cfg.radius),
        Min(m.w, box.maxI + cfg.radius), Min(m.h, box.maxJ + cfg.radius))
  }

  /** The costs that are inflated, in numbers. */
  lemma ObstacleCosts(cfg: Config, cost: Cost)
    ensures cfg.IsObstacle(cost) <==> cost == 254 || (cost == 255 && cfg.inflateAroundUnknown)
  {
  }

  /** The window holds the cells of the map no more than the radius beside the box, and no others. */
  lemma WindowIs(cfg: Config, m: Raster, box: Box, c: Cell)
    ensures Window(cfg, m, box).Contains(c) <==>
            && 0 <= c.x < m.w && box.minI - cfg.radius <= c.x < box.maxI + cfg.radius
            && 0 <= c.y < m.h && box.minJ - cfg.radius <= c.y < box.maxJ + cfg.radius
  {
  }

  /** The obstacle entries of row `j` before column `i`. */
  function ScanRow(cfg: Config, m: Raster, win: Box, j: int, i: int): seq<Entry>
    requires m.Valid() && 0 <= win.minI && i <= m.w && 0 <= j < m.h
    decreases i - win.minI
  {
    if i <= win.minI then [] else
      var c := Cell(i - 1, j);
      ScanRow(cfg, m, win, j, i - 1) + if cfg.IsObstacle(m.At(c)) then [Entry(c, c)] else []
  }

  /** The obstacle entries of the rows before `j`. */
  function ScanRows(cfg: Config, m: Raster, win: Box, j: int): seq<Entry>
    requires m.Valid() && 0 <= win.minI && win.maxI <= m.w && 0 <= win.minJ && j <= m.h
    decreases j - win.minJ
  {
    if j <= win.minJ then [] else
      ScanRows(cfg, m, win, j - 1) + ScanRow(cfg, m, win, j - 1, win.maxI)
  }

  lemma ScanRowNext(cfg: Config, m: Raster, win: Box, j: int, i: int)
    requires m.Valid() && 0 <= win.minI <= i < m.w && 0 <= j < m.h
    ensures ScanRow(cfg, m, win, j, i + 1)
            == ScanRow(cfg, m, win, j, i) +
               if cfg.IsObstacle(m.At(Cell(i, j))) then [Entry(Cell(i, j), Cell(i, j))] else []
  {
  }

  lemma ScanRowsNext(cfg: Config, m: Raster, win: Box, j: int)
    requires m.Valid() && 0 <= win.minI && win.maxI <= m.w && 0 <= win.minJ <= j < m.h
    ensures ScanRows(cfg, m, win, j + 1) == ScanRows(cfg, m, win, j) + ScanRow(cfg, m, win, j, win.maxI)
  {
  }

  lemma ScanNone(cfg: Config, m: Raster, win: Box)
    requires m.Valid() && 0 <= win.minI && win.maxI <= m.w && 0 <= win.minJ && win.maxJ <= m.h
    ensures win.maxJ <= win.minJ ==> ScanRows(cfg, m, win, win.maxJ) == []
    ensures win.minJ <= m.h ==> ScanRows(cfg, m, win, win.minJ) == []
    ensures win.maxI <= win.minI ==> forall j | 0 <= j < m.h :: ScanRow(cfg, m, win, j, win.maxI) == []
    ensures win.minI <= m.w ==> forall j | 0 <= j < m.h :: ScanRow(cfg, m, win, j, win.minI) == []
  {
  }

  ghost function Sources(cfg: Config, m: Raster, box: Box): (s: set<Cell>)
    requires m.Valid()
  {
    set c | c in Cells(m.w, m.h) && Window(cfg, m, box).Contains(c) && cfg.IsObstacle(m.At(c))
  }

  ghost function ProblemOf(cfg: Config, m: Raster, box: Box): Problem
    requires m.Valid()
  {
    Problem(m.w, m.h, cfg.radius, Sources(cfg, m, box))
  }

  lemma {:induction false} ScanRowFinds(cfg: Config, m: Raster, win: Box, j: int, i: int, e: Entry)
    requires m.Valid() && 0 <= win.minI && i <= m.w && 0 <= j < m.h
    ensures e in ScanRow(cfg, m, win, j, i) <==>
            e.cell == e.src && e.cell.y == j && win.minI <= e.cell.x < i && cfg.IsObstacle(m.At(e.cell))
    decreases i - win.minI
  {
    if win.minI < i {
      ScanRowFinds(cfg, m, win, j, i - 1, e);
    }
  }

  lemma {:induction false} ScanRowsFinds(cfg: Config, m: Raster, win: Box, j: int, e: Entry)
    requires m.Valid() && 0 <= win.minI && win.maxI <= m.w && 0 <= win.minJ && j <= m.h
    ensures e in ScanRows(cfg, m, win, j) <==>
            e.cell == e.src && win.minI <= e.cell.x < win.maxI && win.minJ <= e.cell.y < j
            && cfg.IsObstacle(m.At(e.cell))
    decreases j - win.minJ
  {
    if win.minJ < j {
      ScanRowsFinds(cfg, m, win, j - 1, e);
      ScanRowFinds(cfg, m, win, j - 1, win.maxI, e);
    }
  }

  /** The scan queues exactly the obstacle cells of the window, each as its own source. */
  lemma ScanGood(cfg: Config, m: Raster, box: Box)
    requires m.Valid()
    ensures var g, win := ProblemOf(cfg, m, box), Window(cfg, m, box);
            Good(g, Initial(g, ScanRows(cfg, m, win, win.maxJ)))
  {
    hide Good;
    var g, win := ProblemOf(cfg, m, box), Window(cfg, m, box);
    forall e
      ensures e in ScanRows(cfg, m, win, win.maxJ) <==> e.src in g.sources && e.cell == e.src
    {
      ScanRowsFinds(cfg, m, win, win.maxJ, e);
    }
    InitialGood(g, ScanRows(cfg, m, win, win.maxJ));
  }

  ghost function Start(cfg: Config, m: Raster, box: Box): (st: State)
    requires m.Valid()
    ensures Good(ProblemOf(cfg, m, box), st)
  {
    hide Good;
    ScanGood(cfg, m, box);
    var g, win := ProblemOf(cfg, m, box), Window(cfg, m, box);
    Initial(g, ScanRows(cfg, m, win, win.maxJ))
  }

  /** The obstacle each reached cell inherits its cost from. */
  ghost function Owner(cfg: Config, m: Raster, box: Box): Owners
    requires m.Valid()
  {
    Run(ProblemOf(cfg, m, box), Start(cfg, m, box)).owner
  }

  lemma OwnerFinal(cfg: Config, m: Raster, box: Box)
    requires m.Valid()
    ensures Final(ProblemOf(cfg, m, box), Owner(cfg, m, box))
  {
    RunEndsEmpty(ProblemOf(cfg, m, box), Start(cfg, m, box));
  }

  ghost function CellAfter(cfg: Config, owner: Owners, m: Raster, box: Box, c: Cell): Cost
    requires m.Valid() && m.Has(c) && cfg.costs.Valid()
  {
    if c in owner && box.Contains(c) then cfg.NewCost(m.At(c), cfg.costs.Cost(Dist(owner, c))) else m.At(c)
  }

  /** `m'` is the map `m` once the cells of `owner` have got their costs. */
  ghost predicate Written(cfg: Config, owner: Owners, m: Raster, box: Box, m': Raster)
    requires m.Valid() && cfg.costs.Valid()
  {
    && m.SameShape(m')
    && forall c | m.Has(c) :: m'.At(c) == CellAfter(cfg, owner, m, box, c)
  }

  ghost predicate Inflated(cfg: Config, m: Raster, box: Box, m': Raster)
    requires m.Valid() && cfg.costs.Valid()
  {
    Written(cfg, Owner(cfg, m, box), m, box, m')
  }

  /** Settling one more cell and writing its cost. */
  lemma WrittenNext(cfg: Config, owner: Owners, m: Raster, box: Box, r: Raster, c: Cell, s: Cell, v: Cost)
    requires m.Valid() && cfg.costs.Valid() && Written(cfg, owner, m, box, r) && m.Has(c) && c !in owner
    requires v == if box.Contains(c) then cfg.NewCost(r.At(c), cfg.costs.Cost(D2(c, s))) else r.At(c)
    ensures 0 <= Index(m.w, c.x, c.y) < |r.cells|
    ensures Written(cfg, owner[c := s], m, box, r.(cells := r.cells[Index(m.w, c.x, c.y) := v]))
  {
    hide Norm, Index, CostModel.Cost, CostModel.Valid, Config.NewCost;
    IndexInRange(m.w, m.h, c.x, c.y);
    var r' := r.(cells := r.cells[Index(m.w, c.x, c.y) := v]);
    forall d | m.Has(d)
      ensures r'.At(d) == CellAfter(cfg, owner[c := s], m, box, d)
    {
      IndexInRange(m.w, m.h, d.x, d.y);
      IndexInjective(m.w, d.x, d.y, c.x, c.y);
      assert r.At(d) == CellAfter(cfg, owner, m, box, d);
    }
  }

  // ---------------------------------------------------------------- frame and monotonicity

  /** Cells outside the box keep their cost; known costs never fall; an unknown cell only becomes costly. */
  lemma CostsOnlyRise(cfg: Config, owner: Owners, m: Raster, box: Box, m': Raster, c: Cell)
    requires m.SameShape(m') && cfg.costs.Valid() && m.Has(c) && Written(cfg, owner, m, box, m')
    ensures !box.Contains(c) ==> m'.At(c) == m.At(c)
    ensures m.At(c) != NO_INFORMATION ==> m.At(c) <= m'.At(c) < NO_INFORMATION
    ensures m.At(c) == NO_INFORMATION && m'.At(c) != NO_INFORMATION ==>
              m'.At(c) >= if cfg.inflateUnknown then 1 else INSCRIBED_INFLATED_OBSTACLE
  {
    hide Norm, Index;
    assert m'.At(c) == CellAfter(cfg, owner, m, box, c);
  }

  /** Every change is the cost of a real obstacle within the radius, and an unknown map cell is none. */
  lemma ChangedByObstacle(cfg: Config, m: Raster, box: Box, m': Raster, c: Cell) returns (s: Cell)
    requires m.SameShape(m') && cfg.costs.Valid() && Inflated(cfg, m, box, m') && m.Has(c)
    requires m'.At(c) != m.At(c)
    ensures m.Has(s) && cfg.IsObstacle(m.At(s)) && D2(c, s) <= cfg.radius * cfg.radius
    ensures m'.At(c) == cfg.costs.Cost(D2(c, s))
  {
    hide Norm, Final;
    var owner := Owner(cfg, m, box);
    OwnerFinal(cfg, m, box);
    SettledWithinRadius(ProblemOf(cfg, m, box), owner, c);
    s := owner[c];
  }

  // ---------------------------------------------------------------- coverage

  /** An obstacle within the radius of a cell of the box lies in the scanned window. */
  lemma WindowSuffices(cfg: Config, m: Raster, box: Box, s: Cell, c: Cell)
    requires m.Valid() && m.Has(s) && m.Has(c) && cfg.IsObstacle(m.At(s)) && box.Contains(c)
    requires Abs(c.x - s.x) <= cfg.radius && Abs(c.y - s.y) <= cfg.radius
    ensures s in Sources(cfg, m, box)
  {
  }

  /**
   Any cell of the box `d` moves from any obstacle of the map, `d` within the radius, is written
   with the cost of an obstacle no farther than `d`; if it was known it costs at least that much.
   */
  lemma CoveredByMoves(cfg: Config, m: Raster, box: Box, m': Raster, s: Cell, c: Cell)
    requires m.SameShape(m') && cfg.costs.Valid() && Inflated(cfg, m, box, m')
    requires m.Has(s) && m.Has(c) && cfg.IsObstacle(m.At(s)) && box.Contains(c)
    requires Manhattan(s, c) <= cfg.radius
    ensures var d := Manhattan(s, c);
            && (exists e: nat :: e <= d * d && m'.At(c) == cfg.NewCost(m.At(c), cfg.costs.Cost(e)))
            && (m.At(c) != NO_INFORMATION ==> m'.At(c) >= cfg.costs.Cost(d * d))
            && (m.At(c) == NO_INFORMATION &&
                cfg.costs.Cost(d * d) >= (if cfg.inflateUnknown then 1 else INSCRIBED_INFLATED_OBSTACLE)
                ==> cfg.costs.Cost(d * d) <= m'.At(c) < NO_INFORMATION)
  {
    hide Norm, Final, Owner;
    var owner, g, d := Owner(cfg, m, box), ProblemOf(cfg, m, box), Manhattan(s, c);
    OwnerFinal(cfg, m, box);
    WindowSuffices(cfg, m, box, s, c);
    ManhattanCoverage(g, owner, s, c);
    cfg.costs.CostNonincreasing(Dist(owner, c), d * d);
  }

  /** Where inflation is exact, no known cell of the box costs less than any obstacle in reach asks for. */
  lemma ExactCosts(cfg: Config, m: Raster, box: Box, m': Raster, s: Cell, c: Cell)
    requires m.SameShape(m') && cfg.costs.Valid() && Inflated(cfg, m, box, m')
    requires Exact(ProblemOf(cfg, m, box), Owner(cfg, m, box))
    requires m.Has(s) && m.Has(c) && cfg.IsObstacle(m.At(s)) && box.Contains(c) && m.At(c) != NO_INFORMATION
    requires D2(c, s) <= cfg.radius * cfg.radius
    ensures m'.At(c) >= cfg.costs.Cost(D2(c, s))
  {
    hide Norm, Owner;
    WithinBox(c, s, cfg.radius);
    WindowSuffices(cfg, m, box, s, c);
    var g, owner := ProblemOf(cfg, m, box), Owner(cfg, m, box);
    assert g.Reaches(c, s);
    assert Covered(g, c);
    cfg.costs.CostNonincreasing(Dist(owner, c), D2(c, s));
  }

  /** So it is wherever every covered cell inherits, a condition on the map's obstacles. */
  lemma ExactCostsIf(cfg: Config, m: Raster, box: Box, m': Raster, s: Cell, c: Cell)
    requires m.SameShape(m') && cfg.costs.Valid() && Inflated(cfg, m, box, m')
    requires AllInherit(ProblemOf(cfg, m, box))
    requires m.Has(s) && m.Has(c) && cfg.IsObstacle(m.At(s)) && box.Contains(c) && m.At(c) != NO_INFORMATION
    requires D2(c, s) <= cfg.radius * cfg.radius
    ensures m'.At(c) >= cfg.costs.Cost(D2(c, s))
  {
    hide Norm, Owner, Final, Exact, AllInherit, CostModel.Cost, Inflated;
    OwnerFinal(cfg, m, box);
    ExactIf(ProblemOf(cfg, m, box), Owner(cfg, m, box));
    ExactCosts(cfg, m, box, m', s, c);
  }

  // ---------------------------------------------------------------- idempotence

  /** Inflation neither creates nor removes obstacles. */
  lemma ObstaclesKept(cfg: Config, m: Raster, box: Box, m': Raster, c: Cell)
    requires m.SameShape(m') && cfg.costs.Valid() && Inflated(cfg, m, box, m') && m.Has(c)
    ensures Window(cfg, m, box).Contains(c) ==> (cfg.IsObstacle(m'.At(c)) <==> cfg.IsObstacle(m.At(c)))
  {
    hide Norm, Final, Owner;
    var owner, g := Owner(cfg, m, box), ProblemOf(cfg, m, box);
    OwnerFinal(cfg, m, box);
    SettledWithinRadius(g, owner, c);
    if c in owner {
      D2Zero(c, owner[c]);
    }
  }

  lemma {:induction false} SameScanRow(cfg: Config, m: Raster, m': Raster, win: Box, j: int, i: int)
    requires m.SameShape(m')
    requires 0 <= win.minI && i <= win.maxI && win.maxI <= m.w && 0 <= win.minJ <= j < win.maxJ <= m.h
    requires forall c | m.Has(c) && win.Contains(c) :: cfg.IsObstacle(m'.At(c)) <==> cfg.IsObstacle(m.At(c))
    ensures ScanRow(cfg, m', win, j, i) == ScanRow(cfg, m, win, j, i)
    decreases i - win.minI
  {
    if win.minI < i {
      SameScanRow(cfg, m, m', win, j, i - 1);
      assert win.Contains(Cell(i - 1, j));
    }
  }

  lemma {:induction false} SameScan(cfg: Config, m: Raster, m': Raster, win: Box, j: int)
    requires m.SameShape(m')
    requires 0 <= win.minI && win.maxI <= m.w && 0 <= win.minJ && j <= win.maxJ && win.maxJ <= m.h
    requires forall c | m.Has(c) && win.Contains(c) :: cfg.IsObstacle(m'.At(c)) <==> cfg.IsObstacle(m.At(c))
    ensures ScanRows(cfg, m', win, j) == ScanRows(cfg, m, win, j)
    decreases j - win.minJ
  {
    hide Config.IsObstacle, Raster.At, ScanRow;
    if win.minJ < j {
      SameScan(cfg, m, m', win, j - 1);
      SameScanRow(cfg, m, m', win, j - 1, win.maxI);
    }
  }

  /** The second inflation of the same box finds the same obstacles in the same order. */
  lemma SameOwner(cfg: Config, m: Raster, box: Box, m': Raster)
    requires m.SameShape(m') && cfg.costs.Valid() && Inflated(cfg, m, box, m')
    ensures Owner(cfg, m', box) == Owner(cfg, m, box)
  {
    hide Norm, Run, Inflated;
    var win := Window(cfg, m, box);
    forall c | m.Has(c)
      ensures win.Contains(c) ==> (cfg.IsObstacle(m'.At(c)) <==> cfg.IsObstacle(m.At(c)))
    {
      ObstaclesKept(cfg, m, box, m', c);
    }
    SameScan(cfg, m, m', win, win.maxJ);
    assert Sources(cfg, m', box) == Sources(cfg, m, box);
  }

  lemma SameCells(m: Raster, m': Raster)
    requires m.SameShape(m')
    requires forall c | m.Has(c) :: m'.At(c) == m.At(c)
    ensures m' == m
  {
    forall i | 0 <= i < |m.cells|
      ensures m'.cells[i] == m.cells[i]
    {
      var c := CellAtIndex(m.w, m.h, i);
      assert m'.At(c) == m.At(c);
    }
  }

  lemma QuotientBound(i: nat, w: nat, h: nat)
    requires w > 0
    ensures h <= i / w ==> h * w <= i
    ensures i == i / w * w + i % w
  {
    if h <= i / w {
      assert h * w <= i / w * w;
    }
  }

  lemma CellAtIndex(w: nat, h: nat, i: nat) returns (c: Cell)
    requires i < w * h
    ensures InGrid(w, h, c) && Index(w, c.x, c.y) == i
  {
    assert w > 0;
    QuotientBound(i, w, h);
    c := Cell(i % w, i / w);
  }

  /** Inflating the same box twice is inflating it once. */
  lemma Idempotent(cfg: Config, m: Raster, box: Box, m': Raster, m'': Raster)
    requires m.SameShape(m') && m'.SameShape(m'') && cfg.costs.Valid()
    requires Inflated(cfg, m, box, m') && Inflated(cfg, m', box, m'')
    ensures m'' == m'
  {
    hide Norm, Owner;
    SameOwner(cfg, m, box, m');
    forall c | m.Has(c)
      ensures m''.At(c) == m'.At(c)
    {
      assert m'.At(c) == CellAfter(cfg, Owner(cfg, m, box), m, box, c);
      assert m''.At(c) == CellAfter(cfg, Owner(cfg, m, box), m', box, c);
    }
    SameCells(m', m'');
  }
}
