/** `removeSinglePixels`: the fast filter for groups of one, by the maximum over the neighbours. */
module SinglePixels {
  import opened CostValues
  import opened Grid
  import opened PixelGraph
  import opened Denoise

  /** An unknown pixel counts as free where it is not an obstacle. */
  function Clean(noInfoIsObstacle: bool, v: Cost): Cost {
    if !noInfoIsObstacle && v == NO_INFORMATION then FREE_SPACE else v
  }

  /** Pixels outside the image read as zero. */
  function Sample(noInfoIsObstacle: bool, image: array2<Cost>, row: int, column: int): Cost
    reads image
  {
    if 0 <= row < image.Length0 && 0 <= column < image.Length1 then Clean(noInfoIsObstacle, image[row, column]) else 0
  }

  /** One row of the structuring element laid over a pixel: which of the three neighbours it uses. */
  datatype ShapeRow = ShapeRow(left: bool, middle: bool, right: bool)

  function CentralRow(): ShapeRow {
    ShapeRow(true, false, true)
  }

  function OuterRow(way: Connectivity): ShapeRow {
    ShapeRow(way.Way8?, true, way.Way8?)
  }

  function Overlay(noInfoIsObstacle: bool, image: array2<Cost>, shape: ShapeRow, row: int, column: int): Cost
    reads image
  {
    Max(Max(if shape.left then Sample(noInfoIsObstacle, image, row, column - 1) else 0,
            if shape.middle then Sample(noInfoIsObstacle, image, row, column) else 0),
        if shape.right then Sample(noInfoIsObstacle, image, row, column + 1) else 0)
  }

  /** The greatest neighbour, counting pixels outside the image as zero. */
  function MaxNeighbour(way: Connectivity, noInfoIsObstacle: bool, image: array2<Cost>, row: int, column: int): Cost
    reads image
  {
    Max(Max(Overlay(noInfoIsObstacle, image, CentralRow(), row, column),
            Overlay(noInfoIsObstacle, image, OuterRow(way), row - 1, column)),
        Overlay(noInfoIsObstacle, image, OuterRow(way), row + 1, column))
  }

  /** One pass over one row: the first pass writes, the others keep the greater value. */
  function Probed(noInfoIsObstacle: bool, input: array2<Cost>, shape: ShapeRow, shift: int, was: Cost,
                  row: int, column: int): Cost
    reads input
  {
    var overlay := Overlay(noInfoIsObstacle, input, shape, row + shift, column);
    if shift == 0 then overlay else Max(was, overlay)
  }

  method ProbeRow(noInfoIsObstacle: bool, input: array2<Cost>, shift: int, output: array2<Cost>, shape: ShapeRow,
                  r: nat)
    requires input != output && input.Length0 == output.Length0 && input.Length1 == output.Length1
    requires r < output.Length0
    modifies output
    ensures forall j | 0 <= j < output.Length1 ::
              output[r, j] == Probed(noInfoIsObstacle, input, shape, shift, old(output[r, j]), r, j)
    ensures forall i, j | 0 <= i < output.Length0 && 0 <= j < output.Length1 && i != r ::
              output[i, j] == old(output[i, j])
  {
    hide Overlay;
    for c := 0 to input.Length1
      invariant forall j | 0 <= j < c ::
                  output[r, j] == Probed(noInfoIsObstacle, input, shape, shift, old(output[r, j]), r, j)
      invariant forall j | c <= j < output.Length1 :: output[r, j] == old(output[r, j])
      invariant forall i, j | 0 <= i < output.Length0 && 0 <= j < output.Length1 && i != r ::
                  output[i, j] == old(output[i, j])
    {
      var overlay := Overlay(noInfoIsObstacle, input, shape, r + shift, c);
      output[r, c] := if shift == 0 then overlay else Max(output[r, c], overlay);
    }
  }

  /** `probeRows`: lays one row of the shape over row `row + shift` for every row that has one. */
  method ProbeRows(noInfoIsObstacle: bool, input: array2<Cost>, shift: int, output: array2<Cost>, shape: ShapeRow)
    requires input != output && input.Length0 == output.Length0 && input.Length1 == output.Length1
    requires -1 <= shift <= 1
    modifies output
    ensures forall r, c | 0 <= r < output.Length0 && 0 <= c < output.Length1 ::
              output[r, c] == Probed(noInfoIsObstacle, input, shape, shift, old(output[r, c]), r, c)
  {
    var first, last := if shift < 0 then 1 else 0, if shift > 0 then input.Length0 - 1 else input.Length0;
    if first < last {
      for r := first to last
        invariant forall i, j | first <= i < r && 0 <= j < output.Length1 ::
                    output[i, j] == Probed(noInfoIsObstacle, input, shape, shift, old(output[i, j]), i, j)
        invariant forall i, j | 0 <= i < output.Length0 && 0 <= j < output.Length1 && !(first <= i < r) ::
                    output[i, j] == old(output[i, j])
      {
        ProbeRow(noInfoIsObstacle, input, shift, output, shape, r);
      }
    }
  }

  /** `dilate`: three passes, one per row of the structuring element. */
  method Dilate(way: Connectivity, noInfoIsObstacle: bool, input: array2<Cost>, output: array2<Cost>)
    requires input != output && input.Length0 == output.Length0 && input.Length1 == output.Length1
    modifies output
    ensures forall r, c | 0 <= r < output.Length0 && 0 <= c < output.Length1 ::
              output[r, c] == MaxNeighbour(way, noInfoIsObstacle, input, r, c)
  {
    ProbeRows(noInfoIsObstacle, input, 0, output, CentralRow());
    ProbeRows(noInfoIsObstacle, input, -1, output, OuterRow(way));
    ProbeRows(noInfoIsObstacle, input, 1, output, OuterRow(way));
  }

  /** The greatest neighbour is an obstacle exactly when some neighbour is: obstacles have the top costs. */
  lemma MaxDetectsObstacles(way: Connectivity, noInfoIsObstacle: bool, image: array2<Cost>, p: Cell)
    requires p in Contents(image)
    ensures !IsBackground(noInfoIsObstacle, MaxNeighbour(way, noInfoIsObstacle, image, p.y, p.x)) <==>
            exists q :: q in Obstacles(noInfoIsObstacle, Contents(image)) && Linked(way, p, q)
  {
    var obs := Obstacles(noInfoIsObstacle, Contents(image));
    var v := MaxNeighbour(way, noInfoIsObstacle, image, p.y, p.x);
    forall q: Cell
      ensures q in obs <==> Sample(noInfoIsObstacle, image, q.y, q.x) >= INSCRIBED_INFLATED_OBSTACLE
    {
    }
    if q :| q in obs && Linked(way, p, q) {
      assert Sample(noInfoIsObstacle, image, q.y, q.x) <= v;
    }
    if v >= INSCRIBED_INFLATED_OBSTACLE {
      var q := GreatestNeighbour(way, noInfoIsObstacle, image, p);
    }
  }

  lemma GreatestNeighbour(way: Connectivity, noInfoIsObstacle: bool, image: array2<Cost>, p: Cell) returns (q: Cell)
    requires MaxNeighbour(way, noInfoIsObstacle, image, p.y, p.x) > 0
    ensures Linked(way, p, q)
    ensures Sample(noInfoIsObstacle, image, q.y, q.x) == MaxNeighbour(way, noInfoIsObstacle, image, p.y, p.x)
  {
    var v := MaxNeighbour(way, noInfoIsObstacle, image, p.y, p.x);
    var row := if v == Overlay(noInfoIsObstacle, image, CentralRow(), p.y, p.x) then p.y
               else if v == Overlay(noInfoIsObstacle, image, OuterRow(way), p.y - 1, p.x) then p.y - 1
               else p.y + 1;
    var shape := if row == p.y then CentralRow() else OuterRow(way);
    q := if shape.left && Sample(noInfoIsObstacle, image, row, p.x - 1) == v then Cell(p.x - 1, row)
         else if shape.middle && Sample(noInfoIsObstacle, image, row, p.x) == v then Cell(p.x, row)
         else Cell(p.x + 1, row);
  }

  /** A pixel that is an obstacle without obstacle neighbours is freed. */
  method ConvertPixels(noInfoIsObstacle: bool, maxNeighbours: array2<Cost>, image: array2<Cost>, ghost m': Picture)
    requires maxNeighbours != image
    requires maxNeighbours.Length0 == image.Length0 && maxNeighbours.Length1 == image.Length1
    requires m'.Keys == Contents(image).Keys
    requires forall i, j | 0 <= i < image.Length0 && 0 <= j < image.Length1 ::
               m'[Cell(j, i)] == if !IsBackground(noInfoIsObstacle, image[i, j]) &&
                                    IsBackground(noInfoIsObstacle, maxNeighbours[i, j])
                                 then FREE_SPACE else image[i, j]
    modifies image
    ensures Contents(image) == m'
  {
    ghost var m := Contents(image);
    hide IsBackground;
    for r := 0 to image.Length0
      invariant ConvertedTo(image, m, m', r, 0)
    {
      for c := 0 to image.Length1
        invariant ConvertedTo(image, m, m', r, c)
      {
        if !IsBackground(noInfoIsObstacle, image[r, c]) && IsBackground(noInfoIsObstacle, maxNeighbours[r, c]) {
          image[r, c] := FREE_SPACE;
        }
      }
    }
  }

  /** The fast filter frees exactly the groups of fewer than two pixels. */
  method RemoveSinglePixels(way: Connectivity, noInfoIsObstacle: bool, image: array2<Cost>)
    modifies image
    ensures Contents(image) == Denoised(way, noInfoIsObstacle, 2, old(Contents(image)))
  {
    hide MaxNeighbour, Component, IsBackground;
    ghost var m := Contents(image);
    ghost var obs := Obstacles(noInfoIsObstacle, m);
    var maxNeighbours := new Cost[image.Length0, image.Length1]((_, _) => 0);
    Dilate(way, noInfoIsObstacle, image, maxNeighbours);
    forall c | c in obs
      ensures IsBackground(noInfoIsObstacle, maxNeighbours[c.y, c.x]) <==> |Component(way, obs, c)| < 2
    {
      MaxDetectsObstacles(way, noInfoIsObstacle, image, c);
      SmallestGroup(way, obs, c);
    }
    ConvertPixels(noInfoIsObstacle, maxNeighbours, image, Denoised(way, noInfoIsObstacle, 2, m));
  }
}
