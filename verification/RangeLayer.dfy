/** The range layer's map: a target mark and a Bayes update of every touched cell per reading. */
module RangeLayer {
  import opened Options
  import opened Reals
  import opened RangeModel

  /** A cell of the sensor cone: its index if it is on the map, its distance and its angle off the axis. */
  datatype Touch = Touch(cell: Option<nat>, phi: real, theta: real)

  /** A range message, with the cells its cone and its target point fall on. */
  datatype Reading = Reading(range: real, maxAngle: real, clear: bool, target: Option<nat>, touched: seq<Touch>) {
    /** Indices are on the map and distances are not negative. */
    predicate Fits(size: nat) {
      && (target.Some? ==> target.value < size)
      && forall t <- touched :: (t.cell.Some? ==> t.cell.value < size) && t.phi >= 0.0
    }

    /** The update of the cell is a number: the source divides zero by zero nowhere else. */
    predicate DefinedAt(model: Model, t: Touch) {
      t.cell.None? || clear || maxAngle != 0.0 || t.theta != 0.0 || model.BeyondBand(range, t.phi)
    }

    predicate Defined(model: Model) {
      forall t <- touched :: DefinedAt(model, t)
    }

    /** What the reading says about a cell: nothing is certain but a clearing. */
    ghost function Evidence(model: Model, t: Touch): (e: Option<real>)
      requires model.Sound() && t.phi >= 0.0
      ensures e.Some? ==> 0.0 <= e.value < 1.0
      ensures t.cell.Some? ==> (e.Some? <==> DefinedAt(model, t))
      ensures clear ==> e == Some(0.0)
    {
      if clear then Some(0.0)
      else
        model.SensorInUnit(maxAngle, range, t.phi, t.theta);
        model.Sensor(maxAngle, range, t.phi, t.theta)
    }
  }

  const UNSURE := 127
  const TARGET_COST := 233

  ghost predicate Good(cells: seq<int>) {
    forall i | 0 <= i < |cells| :: Cell(cells[i])
  }

  /** One cell updated in place; nothing is known of the map once an update is no number. */
  ghost function AfterTouch(model: Model, cells: seq<int>, reading: Reading, t: Touch): (r: Option<seq<int>>)
    requires model.Sound() && Good(cells) && t in reading.touched && reading.Fits(|cells|)
    ensures r.Some? ==> |r.value| == |cells| && Good(r.value)
    ensures r.Some? <==> reading.DefinedAt(model, t)
  {
    if t.cell.None? then Some(cells)
    else
      var i := t.cell.value;
      match reading.Evidence(model, t)
      case None => None
      case Some(sensor) =>
        UpdatedIsCell(sensor, cells[i]);
        Some(cells[i := Updated(sensor, cells[i])])
  }

  ghost function AfterTouches(model: Model, cells: seq<int>, reading: Reading, k: nat): (r: Option<seq<int>>)
    requires model.Sound() && Good(cells) && reading.Fits(|cells|) && k <= |reading.touched|
    ensures r.Some? ==> |r.value| == |cells| && Good(r.value)
    ensures r.Some? <==> forall i | 0 <= i < k :: reading.DefinedAt(model, reading.touched[i])
  {
    if k == 0 then Some(cells)
    else match AfterTouches(model, cells, reading, k - 1)
      case None => None
      case Some(before) => AfterTouch(model, before, reading, reading.touched[k - 1])
  }

  ghost function Marked(cells: seq<int>, reading: Reading): (cells': seq<int>)
    requires Good(cells) && reading.Fits(|cells|)
    ensures |cells'| == |cells| && Good(cells')
  {
    if reading.target.Some? then cells[reading.target.value := 233] else cells
  }

  /** The map after one reading. */
  ghost function AfterReading(model: Model, cells: seq<int>, reading: Reading): (r: Option<seq<int>>)
    requires model.Sound() && Good(cells) && reading.Fits(|cells|)
    ensures r.Some? ==> |r.value| == |cells| && Good(r.value)
    ensures r.Some? <==> reading.Defined(model)
  {
    AfterTouches(model, Marked(cells, reading), reading, |reading.touched|)
  }

  /**
   The map after a run: defined iff every reading is, and then every cell has stayed between free and 253
   and every posterior's denominator has been positive.
   */
  ghost function AfterAll(model: Model, cells: seq<int>, readings: seq<Reading>): (r: Option<seq<int>>)
    requires model.Sound() && Good(cells) && forall reading <- readings :: reading.Fits(|cells|)
    ensures r.Some? ==> |r.value| == |cells| && Good(r.value)
    ensures r.Some? <==> forall i | 0 <= i < |readings| :: readings[i].Defined(model)
  {
    if readings == [] then Some(cells)
    else
      assert readings[|readings| - 1] in readings;
      match AfterAll(model, cells, readings[..|readings| - 1])
      case None => None
      case Some(before) => AfterReading(model, before, readings[|readings| - 1])
  }

  /** A beam without width and a cell on its axis: the reading leaves the map undefined, whatever it held. */
  lemma BeamWithoutWidth(model: Model, cells: seq<int>)
    requires model.Sound() && Good(cells) && |cells| > 0
    ensures var reading := Reading(1.0, 0.0, false, None, [Touch(Some(0), 0.0, 0.0)]);
            reading.Fits(|cells|) && AfterReading(model, cells, reading).None?
  {
    var reading, one := Reading(1.0, 0.0, false, None, [Touch(Some(0), 0.0, 0.0)]), 1.0;
    model.WidthSign(one);
    assert reading.touched[0] in reading.touched;
    assert !reading.DefinedAt(model, reading.touched[0]);
  }

  // ---------------------------------------------------------------- what a run keeps

  ghost predicate Below(cells: seq<int>, cells': seq<int>) {
    |cells| == |cells'| && forall i | 0 <= i < |cells| :: cells[i] <= cells'[i]
  }

  lemma TouchKeepsOrder(model: Model, cells: seq<int>, cells': seq<int>, reading: Reading, t: Touch)
    requires model.Sound() && Good(cells) && Good(cells') && Below(cells, cells')
    requires t in reading.touched && reading.Fits(|cells|) && reading.DefinedAt(model, t)
    ensures Below(AfterTouch(model, cells, reading, t).value, AfterTouch(model, cells', reading, t).value)
  {
    hide Updated, Model.Sensor, Model.Sound;
    if t.cell.Some? {
      var sensor := reading.Evidence(model, t).value;
      UpdatedMonotone(sensor, cells[t.cell.value], cells'[t.cell.value]);
    }
  }

  lemma {:induction false} TouchesKeepOrder(model: Model, cells: seq<int>, cells': seq<int>, reading: Reading, k: nat)
    requires model.Sound() && Good(cells) && Good(cells') && Below(cells, cells')
    requires reading.Fits(|cells|) && k <= |reading.touched|
    ensures var a, b := AfterTouches(model, cells, reading, k), AfterTouches(model, cells', reading, k);
            (a.Some? <==> b.Some?) && (a.Some? ==> Below(a.value, b.value))
  {
    hide AfterTouch, Model.Sound, Model.BeyondBand;
    if k > 0 {
      TouchesKeepOrder(model, cells, cells', reading, k - 1);
      var a, b := AfterTouches(model, cells, reading, k - 1), AfterTouches(model, cells', reading, k - 1);
      if a.Some? && reading.DefinedAt(model, reading.touched[k - 1]) {
        TouchKeepsOrder(model, a.value, b.value, reading, reading.touched[k - 1]);
      }
    }
  }

  /** The same readings keep two maps in order. */
  lemma {:induction false} RunKeepsOrder(model: Model, cells: seq<int>, cells': seq<int>, readings: seq<Reading>)
    requires model.Sound() && Good(cells) && Good(cells') && Below(cells, cells')
    requires forall r <- readings :: r.Fits(|cells|)
    ensures var a, b := AfterAll(model, cells, readings), AfterAll(model, cells', readings);
            (a.Some? <==> b.Some?) && (a.Some? ==> Below(a.value, b.value))
  {
    hide AfterTouches, Model.Sound, Reading.Defined;
    if readings != [] {
      var n := |readings| - 1;
      RunKeepsOrder(model, cells, cells', readings[..n]);
      var a, b, last := AfterAll(model, cells, readings[..n]), AfterAll(model, cells', readings[..n]), readings[n];
      assert last in readings;
      if a.Some? {
        TouchesKeepOrder(model, Marked(a.value, last), Marked(b.value, last), last, |last.touched|);
      }
    }
  }

  lemma {:induction false} TouchesKeepFree(model: Model, cells: seq<int>, reading: Reading, k: nat, i: nat)
    requires model.Sound() && Good(cells) && reading.Fits(|cells|) && k <= |reading.touched|
    requires i < |cells| && cells[i] == 0
    ensures var r := AfterTouches(model, cells, reading, k); r.Some? ==> r.value[i] == 0
  {
    hide Updated, Model.Sound, Model.Sensor, Model.BeyondBand;
    if k > 0 {
      TouchesKeepFree(model, cells, reading, k - 1, i);
      var before, t := AfterTouches(model, cells, reading, k - 1), reading.touched[k - 1];
      if before.Some? && t.cell == Some(i) && reading.DefinedAt(model, t) {
        UpdatedIsCell(reading.Evidence(model, t).value, before.value[i]);
      }
    }
  }

  /** A free cell stays free through any defined run of readings none of which has its target there. */
  lemma {:induction false} FreeStaysFree(model: Model, cells: seq<int>, readings: seq<Reading>, i: nat)
    requires model.Sound() && Good(cells) && (forall r <- readings :: r.Fits(|cells|)) && i < |cells| && cells[i] == 0
    requires forall r <- readings :: r.target != Some(i)
    ensures var r := AfterAll(model, cells, readings); r.Some? ==> r.value[i] == 0
  {
    hide AfterTouches, Model.Sound, Reading.Defined;
    if readings != [] {
      var n := |readings| - 1;
      FreeStaysFree(model, cells, readings[..n], i);
      var before, last := AfterAll(model, cells, readings[..n]), readings[n];
      assert last in readings;
      if before.Some? {
        TouchesKeepFree(model, Marked(before.value, last), last, |last.touched|, i);
      }
    }
  }

  /** A clearing reading is always defined and leaves every cell it touches free. */
  lemma {:induction false} ClearingFrees(model: Model, cells: seq<int>, reading: Reading, k: nat, j: nat)
    requires model.Sound() && Good(cells) && reading.Fits(|cells|) && reading.clear
    requires j < k <= |reading.touched| && reading.touched[j].cell.Some?
    ensures var r := AfterTouches(model, cells, reading, k); r.Some? && r.value[reading.touched[j].cell.value] == 0
  {
    hide Updated, Model.Sound, Model.Sensor, Model.BeyondBand;
    var before, t := AfterTouches(model, cells, reading, k - 1), reading.touched[k - 1];
    var i, none := reading.touched[j].cell.value, 0.0;
    UpdatedIsCell(none, before.value[i]);
    if j < k - 1 {
      ClearingFrees(model, cells, reading, k - 1, j);
    }
  }

  // ---------------------------------------------------------------- the layer

  class Layer {
    const model: Model
    const costmap: array<int>

    constructor (model: Model, size: nat)
      ensures this.model == model && fresh(costmap) && costmap.Length == size
      ensures Good(costmap[..])
      ensures forall i | 0 <= i < size :: costmap[i] == UNSURE
    {
      this.model := model;
      costmap := new int[size](_ => ToCost(0.5));
    }

    method Reset()
      modifies costmap
      ensures forall i | 0 <= i < costmap.Length :: costmap[i] == UNSURE
      ensures Good(costmap[..])
    {
      for i := 0 to costmap.Length
        invariant forall j | 0 <= j < i :: costmap[j] == UNSURE
      {
        costmap[i] := ToCost(0.5);
      }
    }

    /** Tells whether the update is a number; if not, the map is left as it is. */
    method UpdateCell(reading: Reading, t: Touch) returns (defined: bool)
      requires model.Sound() && Good(costmap[..]) && reading.Fits(costmap.Length) && t in reading.touched
      modifies costmap
      ensures defined <==> reading.DefinedAt(model, t)
      ensures var r := AfterTouch(model, old(costmap[..]), reading, t);
              costmap[..] == if defined then r.value else old(costmap[..])
    {
      hide Model.Sound, Model.Sensor, Model.BeyondBand;
      if t.cell.Some? {
        var i := t.cell.value;
        var sensor := Some(0.0);
        if !reading.clear {
          sensor := model.Sensor(reading.maxAngle, reading.range, t.phi, t.theta);
        }
        assert sensor == reading.Evidence(model, t);
        if sensor.None? {
          return false;
        }
        assert costmap[..][i] == costmap[i];
        var prior := ToProb(costmap[i]);
        var probOcc, probNot := Occupied(sensor.value, prior), Free(sensor.value, prior);
        DenominatorPositive(sensor.value, costmap[i]);
        var newProb := Over(probOcc, probOcc + probNot);
        costmap[i] := ToCost(newProb);
      }
      defined := true;
    }

    /** One message: the target cell is marked, then every cell of the cone updated. */
    method UpdateCostmap(reading: Reading) returns (defined: bool)
      requires model.Sound() && Good(costmap[..]) && reading.Fits(costmap.Length)
      modifies costmap
      ensures Good(costmap[..])
      ensures var r := AfterReading(model, old(costmap[..]), reading);
              (defined <==> r.Some?) && (defined ==> costmap[..] == r.value)
    {
      hide AfterTouch, Model.Sound, Model.BeyondBand;
      if reading.target.Some? {
        costmap[reading.target.value] := TARGET_COST;
      }
      ghost var marked := Marked(old(costmap[..]), reading);
      assert costmap[..] == marked;
      for k := 0 to |reading.touched|
        invariant AfterTouches(model, marked, reading, k) == Some(costmap[..])
      {
        defined := UpdateCell(reading, reading.touched[k]);
        if !defined {
          return;
        }
      }
      defined := true;
    }

    /** All buffered messages in order. */
    method ProcessBuffer(buffer: seq<Reading>) returns (defined: bool)
      requires model.Sound() && Good(costmap[..]) && forall r <- buffer :: r.Fits(costmap.Length)
      modifies costmap
      ensures Good(costmap[..])
      ensures var r := AfterAll(model, old(costmap[..]), buffer);
              (defined <==> r.Some?) && (defined ==> costmap[..] == r.value)
    {
      hide AfterReading, Model.Sound, Reading.Defined;
      for k := 0 to |buffer|
        invariant AfterAll(model, old(costmap[..]), buffer[..k]) == Some(costmap[..])
      {
        assert buffer[..k + 1][..k] == buffer[..k];
        defined := UpdateCostmap(buffer[k]);
        if !defined {
          assert !buffer[k].Defined(model);
          return;
        }
      }
      assert buffer[..|buffer|] == buffer;
      defined := true;
    }
  }
}
