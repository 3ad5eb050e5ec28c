/**
 The sweep over the bins as a function of its state: the order in which entries are examined,
 skipped, settled and queued is the order of the loops of `updateCosts`.
 */
module Sweep {
  import opened Grid
  import opened DistanceRank
  import opened Wavefront
  import opened WavefrontEnd

  /** `bins[..bin]` are done, and of `bins[bin]` the first `pos` entries. */
  datatype State = State(bins: seq<seq<Entry>>, bin: nat, pos: nat, owner: Owners, examined: nat)

  /** One bin per rank of a squared distance, up to two cells beyond the radius. */
  ghost function BinCount(radius: nat): nat {
    Rank((radius + 2) * (radius + 2)) + 1
  }

  ghost function Pending(bins: seq<seq<Entry>>): set<Entry> {
    set b, i | 0 <= b < |bins| && 0 <= i < |bins[b]| :: bins[b][i]
  }

  /** Entries sit in the bin of their rank, finished bins are empty, examined cells are settled. */
  ghost predicate BinsOk(st: State) {
    && (forall b, i | 0 <= b < |st.bins| && 0 <= i < |st.bins[b]| ::
          Rank(D2(st.bins[b][i].cell, st.bins[b][i].src)) == b)
    && (forall b | 0 <= b < |st.bins| && b < st.bin :: st.bins[b] == [])
    && st.bin <= |st.bins|
    && (if st.bin == |st.bins| then st.pos == 0 else st.pos <= |st.bins[st.bin]|)
    && (st.bin < |st.bins| ==> forall i | 0 <= i < st.pos :: st.bins[st.bin][i].cell in st.owner)
  }

  ghost predicate Good(g: Problem, st: State) {
    && |st.bins| == BinCount(g.radius)
    && BinsOk(st)
    && Inv(g, st.owner, Pending(st.bins), st.bin)
  }

  // ---------------------------------------------------------------- queueing

  lemma BinExists(g: Problem, e: Entry)
    requires g.Reaches(e.cell, e.src)
    ensures Rank(D2(e.cell, e.src)) < BinCount(g.radius)
  {
    hide Norm;
    var r := g.radius;
    assert (r + 2) * (r + 2) == r * r + 4 * r + 4;
    RankMonotone(D2(e.cell, e.src), (r + 2) * (r + 2));
  }

  ghost predicate Accepts(g: Problem, owner: Owners, e: Entry) {
    InGrid(g.w, g.h, e.cell) && e.cell !in owner && g.Reaches(e.cell, e.src)
  }

  /** `enqueue`: a cell of the map that is unseen and within the radius joins the bin of its rank. */
  ghost function Enqueue(g: Problem, owner: Owners, bins: seq<seq<Entry>>, e: Entry): (r: seq<seq<Entry>>)
    requires |bins| == BinCount(g.radius)
    ensures |r| == |bins|
  {
    if Accepts(g, owner, e) then
      BinExists(g, e);
      var b := Rank(D2(e.cell, e.src));
      bins[b := bins[b] + [e]]
    else
      bins
  }

  ghost function EnqueueAll(g: Problem, owner: Owners, bins: seq<seq<Entry>>, cells: seq<Cell>, s: Cell)
    : (r: seq<seq<Entry>>)
    requires |bins| == BinCount(g.radius)
    ensures |r| == |bins|
    decreases |cells|
  {
    if cells == [] then bins else EnqueueAll(g, owner, Enqueue(g, owner, bins, Entry(cells[0], s)), cells[1..], s)
  }

  /** The four neighbours, in the order the source offers them. */
  function Neighbours(c: Cell): seq<Cell> {
    [Cell(c.x - 1, c.y), Cell(c.x, c.y - 1), Cell(c.x + 1, c.y), Cell(c.x, c.y + 1)]
  }

  ghost function Offer(g: Problem, owner: Owners, bins: seq<seq<Entry>>, c: Cell, s: Cell): (r: seq<seq<Entry>>)
    requires |bins| == BinCount(g.radius)
    ensures |r| == |bins|
  {
    EnqueueAll(g, owner, bins, Neighbours(c), s)
  }

  lemma PendingAppend(bins: seq<seq<Entry>>, b: nat, e: Entry)
    requires b < |bins|
    ensures Pending(bins[b := bins[b] + [e]]) == Pending(bins) + {e}
  {
    var bins' := bins[b := bins[b] + [e]];
    forall x | x in Pending(bins)
      ensures x in Pending(bins')
    {
      var c, i :| 0 <= c < |bins| && 0 <= i < |bins[c]| && bins[c][i] == x;
      assert bins'[c][i] == x;
    }
    assert bins'[b][|bins[b]|] == e;
  }

  /** What one `enqueue` does to the bins. */
  ghost predicate Queued(bins: seq<seq<Entry>>, bins': seq<seq<Entry>>, added: set<Entry>) {
    && |bins'| == |bins|
    && Pending(bins') == Pending(bins) + added
    && (forall b | 0 <= b < |bins| :: bins[b] <= bins'[b])
    && (forall b, i | 0 <= b < |bins| && |bins[b]| <= i < |bins'[b]| ::
          bins'[b][i] in added && Rank(D2(bins'[b][i].cell, bins'[b][i].src)) == b)
  }

  lemma EnqueueQueues(g: Problem, owner: Owners, bins: seq<seq<Entry>>, e: Entry)
    requires |bins| == BinCount(g.radius)
    ensures Queued(bins, Enqueue(g, owner, bins, e), if Accepts(g, owner, e) then {e} else {})
  {
    hide Norm;
    if Accepts(g, owner, e) {
      BinExists(g, e);
      PendingAppend(bins, Rank(D2(e.cell, e.src)), e);
    }
  }

  lemma QueuedTwice(b0: seq<seq<Entry>>, b1: seq<seq<Entry>>, b2: seq<seq<Entry>>, m: set<Entry>, n: set<Entry>)
    requires Queued(b0, b1, m) && Queued(b1, b2, n)
    ensures Queued(b0, b2, m + n)
  {
    hide Rank, Norm;
    forall b, i | 0 <= b < |b0| && |b0[b]| <= i < |b2[b]|
      ensures b2[b][i] in m + n && Rank(D2(b2[b][i].cell, b2[b][i].src)) == b
    {
      if i < |b1[b]| {
        assert b2[b][i] == b1[b][i];
      }
    }
  }

  ghost function Accepted(g: Problem, owner: Owners, cells: seq<Cell>, s: Cell): set<Entry> {
    set c | c in cells && Accepts(g, owner, Entry(c, s)) :: Entry(c, s)
  }

  lemma {:induction false} EnqueueAllQueues(g: Problem, owner: Owners, bins: seq<seq<Entry>>, cells: seq<Cell>, s: Cell)
    requires |bins| == BinCount(g.radius)
    ensures Queued(bins, EnqueueAll(g, owner, bins, cells, s), Accepted(g, owner, cells, s))
    decreases |cells|
  {
    hide Rank, Norm, BinCount;
    if cells != [] {
      var e := Entry(cells[0], s);
      var bins' := Enqueue(g, owner, bins, e);
      EnqueueQueues(g, owner, bins, e);
      EnqueueAllQueues(g, owner, bins', cells[1..], s);
      var m := if Accepts(g, owner, e) then {e} else {};
      QueuedTwice(bins, bins', EnqueueAll(g, owner, bins', cells[1..], s), m, Accepted(g, owner, cells[1..], s));
      assert forall c :: c in cells <==> c == cells[0] || c in cells[1..];
      assert m + Accepted(g, owner, cells[1..], s) == Accepted(g, owner, cells, s);
    }
  }

  lemma OfferQueues(g: Problem, owner: Owners, bins: seq<seq<Entry>>, e: Entry)
    requires |bins| == BinCount(g.radius)
    ensures Queued(bins, Offer(g, owner, bins, e.cell, e.src), Offered(g, owner, e))
  {
    hide Rank, Norm, Queued, BinCount;
    EnqueueAllQueues(g, owner, bins, Neighbours(e.cell), e.src);
    forall n: Entry
      ensures n in Accepted(g, owner, Neighbours(e.cell), e.src) <==> n in Offered(g, owner, e)
    {
      assert n.cell in Neighbours(e.cell) <==> Adjacent(e.cell, n.cell);
      assert n == Entry(n.cell, n.src);
    }
    assert Accepted(g, owner, Neighbours(e.cell), e.src) == Offered(g, owner, e);
  }

  lemma OutsideIgnored(g: Problem, owner: Owners, bins: seq<seq<Entry>>, e: Entry)
    requires |bins| == BinCount(g.radius) && !InGrid(g.w, g.h, e.cell)
    ensures Enqueue(g, owner, bins, e) == bins
  {
  }

  lemma EnqueueNone(g: Problem, owner: Owners, bins: seq<seq<Entry>>, s: Cell)
    requires |bins| == BinCount(g.radius)
    ensures EnqueueAll(g, owner, bins, [], s) == bins
  {
  }

  lemma EnqueueAllFirst(g: Problem, owner: Owners, bins: seq<seq<Entry>>, c: Cell, rest: seq<Cell>, s: Cell)
    requires |bins| == BinCount(g.radius)
    ensures EnqueueAll(g, owner, bins, [c] + rest, s)
            == EnqueueAll(g, owner, Enqueue(g, owner, bins, Entry(c, s)), rest, s)
  {
    hide Norm, Rank, BinCount, Enqueue;
    assert ([c] + rest)[1..] == rest;
  }

  lemma OfferInOrder(g: Problem, owner: Owners, bins: seq<seq<Entry>>, b1: seq<seq<Entry>>, b2: seq<seq<Entry>>,
                     b3: seq<seq<Entry>>, b4: seq<seq<Entry>>, c: Cell, s: Cell)
    requires |bins| == BinCount(g.radius)
    requires b1 == Enqueue(g, owner, bins, Entry(Cell(c.x - 1, c.y), s))
    requires b2 == Enqueue(g, owner, b1, Entry(Cell(c.x, c.y - 1), s))
    requires b3 == Enqueue(g, owner, b2, Entry(Cell(c.x + 1, c.y), s))
    requires b4 == Enqueue(g, owner, b3, Entry(Cell(c.x, c.y + 1), s))
    ensures Offer(g, owner, bins, c, s) == b4
  {
    hide Norm, Rank, BinCount, Enqueue, EnqueueAll;
    var c1, c2, c3, c4 := Cell(c.x - 1, c.y), Cell(c.x, c.y - 1), Cell(c.x + 1, c.y), Cell(c.x, c.y + 1);
    EnqueueAllFirst(g, owner, bins, c1, [c2, c3, c4], s);
    EnqueueAllFirst(g, owner, b1, c2, [c3, c4], s);
    EnqueueAllFirst(g, owner, b2, c3, [c4], s);
    EnqueueAllFirst(g, owner, b3, c4, [], s);
    EnqueueNone(g, owner, b4, s);
    assert Neighbours(c) == [c1] + [c2, c3, c4];
    assert [c2, c3, c4] == [c2] + [c3, c4];
    assert [c3, c4] == [c3] + [c4];
    assert [c4] == [c4] + [];
  }

  // ---------------------------------------------------------------- one step

  /** The next thing the two nested loops do. */
  ghost function Step(g: Problem, st: State): State
    requires |st.bins| == BinCount(g.radius) && st.bin < |st.bins|
  {
    if |st.bins[st.bin]| <= st.pos then
      st.(bins := st.bins[st.bin := []], bin := st.bin + 1, pos := 0)
    else
      var e := st.bins[st.bin][st.pos];
      if e.cell in st.owner then
        st.(pos := st.pos + 1, examined := st.examined + 1)
      else
        var owner := st.owner[e.cell := e.src];
        State(Offer(g, owner, st.bins, e.cell, e.src), st.bin, st.pos + 1, owner, st.examined + 1)
  }

  lemma PendingHas(bins: seq<seq<Entry>>, b: nat, i: nat)
    requires b < |bins| && i < |bins[b]|
    ensures bins[b][i] in Pending(bins)
  {
  }

  /** Leaving a bin. */
  lemma StepNextBin(g: Problem, st: State)
    requires Good(g, st) && st.bin < |st.bins| && st.pos == |st.bins[st.bin]|
    ensures Good(g, Step(g, st))
  {
    hide Rank, Norm;
    var bins' := st.bins[st.bin := []];
    forall e | e in Pending(bins')
      ensures e in Pending(st.bins) && st.bin < Rank(D2(e.cell, e.src))
    {
      var b, i :| 0 <= b < |bins'| && 0 <= i < |bins'[b]| && bins'[b][i] == e;
      assert st.bins[b][i] == e;
    }
    forall e | e in Pending(st.bins)
      ensures e in Pending(bins') || e.cell in st.owner
    {
      var b, i :| 0 <= b < |st.bins| && 0 <= i < |st.bins[b]| && st.bins[b][i] == e;
      if b != st.bin {
        assert bins'[b][i] == e;
      }
    }
    NextBin(g, st.owner, Pending(st.bins), st.bin, Pending(bins'));
  }

  /** Settling a cell: the swept bin and the finished ones stay as they are. */
  lemma StepSettle(g: Problem, st: State)
    requires Good(g, st) && st.bin < |st.bins| && st.pos < |st.bins[st.bin]|
    requires st.bins[st.bin][st.pos].cell !in st.owner
    ensures Good(g, Step(g, st))
    ensures forall b | 0 <= b <= st.bin :: Step(g, st).bins[b] == st.bins[b]
  {
    hide Rank, Norm, Inv;
    var e := st.bins[st.bin][st.pos];
    var owner := st.owner[e.cell := e.src];
    PendingHas(st.bins, st.bin, st.pos);
    Settle(g, st.owner, Pending(st.bins), st.bin, e, owner);
    OfferQueues(g, owner, st.bins, e);
    var bins' := Step(g, st).bins;
    forall b | 0 <= b <= st.bin
      ensures bins'[b] == st.bins[b]
    {
      if |bins'[b]| > |st.bins[b]| {
        OffersLandLater(g, st.owner, Pending(st.bins), st.bin, e, bins'[b][|st.bins[b]|]);
      }
    }
    forall b, i | 0 <= b < |bins'| && 0 <= i < |bins'[b]|
      ensures Rank(D2(bins'[b][i].cell, bins'[b][i].src)) == b
    {
      if i < |st.bins[b]| {
        assert bins'[b][i] == st.bins[b][i];
      }
    }
  }

  lemma StepKeepsGood(g: Problem, st: State)
    requires Good(g, st) && st.bin < |st.bins|
    ensures Good(g, Step(g, st))
  {
    hide Rank, Norm, Inv;
    if |st.bins[st.bin]| <= st.pos {
      StepNextBin(g, st);
    } else if st.bins[st.bin][st.pos].cell !in st.owner {
      StepSettle(g, st);
    }
  }

  // ---------------------------------------------------------------- the whole sweep

  /** The popped cell lies in the map. */
  lemma PoppedInMap(g: Problem, st: State)
    requires Good(g, st) && st.bin < |st.bins| && st.pos < |st.bins[st.bin]|
    ensures var e := st.bins[st.bin][st.pos];
            e.cell in Cells(g.w, g.h) && e.src in g.sources && InGrid(g.w, g.h, e.src)
            && g.Reaches(e.cell, e.src) && Rank(D2(e.cell, e.src)) == st.bin
  {
    hide Rank, Norm;
    var e := st.bins[st.bin][st.pos];
    PendingHas(st.bins, st.bin, st.pos);
    assert EntryOk(g, st.owner, st.bin, e);
  }

  ghost function Unsettled(g: Problem, st: State): nat {
    |Cells(g.w, g.h) - st.owner.Keys|
  }

  ghost function BinsLeft(st: State): int {
    |st.bins| - st.bin
  }

  ghost function EntriesLeft(st: State): int {
    if st.bin < |st.bins| then |st.bins[st.bin]| - st.pos else 0
  }

  /** Each step settles one more cell, or leaves the bin, or moves on in it. */
  lemma StepProgress(g: Problem, st: State)
    requires Good(g, st) && st.bin < |st.bins|
    ensures var st' := Step(g, st);
            || Unsettled(g, st') < Unsettled(g, st)
            || (Unsettled(g, st') == Unsettled(g, st) && BinsLeft(st') < BinsLeft(st))
            || (Unsettled(g, st') == Unsettled(g, st) && BinsLeft(st') == BinsLeft(st)
                && EntriesLeft(st') < EntriesLeft(st))
  {
    hide Rank, Norm, Inv;
    if st.pos < |st.bins[st.bin]| {
      PoppedInMap(g, st);
      var c := st.bins[st.bin][st.pos].cell;
      var todo := Cells(g.w, g.h) - st.owner.Keys;
      if c !in st.owner {
        assert Cells(g.w, g.h) - Step(g, st).owner.Keys == todo - {c};
      }
    }
  }

  /** Within a bin each step settles a cell or moves on, and the number of bins stays. */
  lemma EntryProgress(g: Problem, st: State)
    requires Good(g, st) && st.bin < |st.bins| && st.pos < |st.bins[st.bin]|
    ensures |st.bins| == BinCount(g.radius)
    ensures var st' := Step(g, st);
            && st'.bin == st.bin && st'.pos == st.pos + 1 && |st'.bins| == |st.bins|
            && (|| Unsettled(g, st') < Unsettled(g, st)
                || (Unsettled(g, st') == Unsettled(g, st) && EntriesLeft(st') < EntriesLeft(st)))
            && 0 <= EntriesLeft(st')
  {
    hide Rank, Norm, Inv;
    StepProgress(g, st);
    StepKeepsGood(g, st);
    GoodShape(g, Step(g, st));
  }

  lemma BinProgress(g: Problem, st: State)
    requires Good(g, st) && st.bin < |st.bins| && st.pos >= |st.bins[st.bin]|
    ensures |st.bins| == BinCount(g.radius)
    ensures var st' := Step(g, st); st'.bin == st.bin + 1 && st'.pos == 0 && |st'.bins| == |st.bins|
  {
    hide Rank, Norm, Inv;
  }

  lemma GoodShape(g: Problem, st: State)
    requires Good(g, st)
    ensures |st.bins| == BinCount(g.radius) && st.bin <= |st.bins| && 0 <= BinsLeft(st) && 0 <= EntriesLeft(st)
  {
  }

  /** All bins swept, in order, while they fill up: the loops run to their end from any good state. */
  ghost function Run(g: Problem, st: State): (r: State)
    requires Good(g, st)
    ensures Good(g, r) && r.bin == |r.bins|
    decreases Unsettled(g, st), BinsLeft(st), EntriesLeft(st)
  {
    hide *;
    GoodShape(g, st);
    if st.bin == |st.bins| then
      st
    else
      StepKeepsGood(g, st);
      StepProgress(g, st);
      GoodShape(g, Step(g, st));
      Run(g, Step(g, st))
  }

  // ---------------------------------------------------------------- start and end

  ghost function EmptyBins(radius: nat): (bins: seq<seq<Entry>>)
    ensures |bins| == BinCount(radius) && |bins| > 0
  {
    seq(BinCount(radius), _ => [])
  }

  /** The state after the scan of the window: the obstacle cells are in the first bin. */
  ghost function Initial(g: Problem, obstacles: seq<Entry>): State {
    State(EmptyBins(g.radius)[0 := obstacles], 0, 0, map[], 0)
  }

  lemma InitialGood(g: Problem, obstacles: seq<Entry>)
    requires g.Valid()
    requires forall e :: e in obstacles <==> e.src in g.sources && e.cell == e.src
    ensures Good(g, Initial(g, obstacles))
  {
    hide Norm, Inv;
    var bins := Initial(g, obstacles).bins;
    forall e
      ensures e in Pending(bins) <==> e in obstacles
    {
      if e in obstacles {
        var i :| 0 <= i < |obstacles| && obstacles[i] == e;
        assert bins[0][i] == e;
      }
    }
    forall i | 0 <= i < |obstacles|
      ensures Rank(D2(obstacles[i].cell, obstacles[i].src)) == 0
    {
      assert obstacles[i] in obstacles;
      D2Zero(obstacles[i].cell, obstacles[i].src);
    }
    Start(g, Pending(bins));
  }

  /** When the sweep ends every entry has been examined: no bin holds anything. */
  lemma RunEndsEmpty(g: Problem, st: State)
    requires Good(g, st)
    ensures var r := Run(g, st); Final(g, r.owner) && r.bins == EmptyBins(g.radius)
  {
    hide Rank, Norm, Inv;
    var r := Run(g, st);
    assert Pending(r.bins) == {};
  }

  // ---------------------------------------------------------------- how much work

  ghost function Total(bins: seq<seq<Entry>>): nat {
    if bins == [] then 0 else |bins[0]| + Total(bins[1..])
  }

  lemma {:induction false} TotalUpdate(bins: seq<seq<Entry>>, b: nat, bin: seq<Entry>)
    requires b < |bins|
    ensures Total(bins[b := bin]) == Total(bins) - |bins[b]| + |bin|
  {
    if b > 0 {
      assert bins[b := bin][1..] == bins[1..][b - 1 := bin];
      TotalUpdate(bins[1..], b - 1, bin);
    } else {
      assert bins[b := bin][1..] == bins[1..];
    }
  }

  lemma {:induction false} TotalAtLeast(bins: seq<seq<Entry>>, b: nat)
    requires b < |bins|
    ensures |bins[b]| <= Total(bins)
  {
    if b > 0 {
      TotalAtLeast(bins[1..], b - 1);
    }
  }

  lemma EnqueueTotal(g: Problem, owner: Owners, bins: seq<seq<Entry>>, e: Entry)
    requires |bins| == BinCount(g.radius)
    ensures Total(Enqueue(g, owner, bins, e)) <= Total(bins) + 1
  {
    hide Norm, Rank;
    if Accepts(g, owner, e) {
      BinExists(g, e);
      var b := Rank(D2(e.cell, e.src));
      TotalUpdate(bins, b, bins[b] + [e]);
    }
  }

  lemma {:induction false} EnqueueAllTotal(g: Problem, owner: Owners, bins: seq<seq<Entry>>, cells: seq<Cell>, s: Cell)
    requires |bins| == BinCount(g.radius)
    ensures Total(EnqueueAll(g, owner, bins, cells, s)) <= Total(bins) + |cells|
    decreases |cells|
  {
    hide Norm, Rank, BinCount, Enqueue, Total;
    if cells != [] {
      EnqueueTotal(g, owner, bins, Entry(cells[0], s));
      EnqueueAllTotal(g, owner, Enqueue(g, owner, bins, Entry(cells[0], s)), cells[1..], s);
    }
  }

  /** Entries examined and still waiting, against sources and settled cells. */
  ghost predicate Counted(st: State, sources: nat) {
    st.examined + Total(st.bins) - st.pos <= sources + 4 * |st.owner|
  }

  lemma StepCounted(g: Problem, st: State, sources: nat)
    requires Good(g, st) && st.bin < |st.bins| && Counted(st, sources)
    ensures Counted(Step(g, st), sources)
  {
    hide Rank, Norm, Inv, Total, EnqueueAll;
    if |st.bins[st.bin]| <= st.pos {
      TotalUpdate(st.bins, st.bin, []);
    } else {
      var e := st.bins[st.bin][st.pos];
      if e.cell !in st.owner {
        var owner := st.owner[e.cell := e.src];
        assert owner.Keys == st.owner.Keys + {e.cell};
        EnqueueAllTotal(g, owner, st.bins, Neighbours(e.cell), e.src);
      }
    }
  }

  lemma {:induction false} RunCounted(g: Problem, st: State, sources: nat)
    requires Good(g, st) && Counted(st, sources)
    ensures Counted(Run(g, st), sources)
    decreases Unsettled(g, st), BinsLeft(st), EntriesLeft(st)
  {
    hide *;
    GoodShape(g, st);
    if st.bin < |st.bins| {
      StepKeepsGood(g, st);
      StepProgress(g, st);
      StepCounted(g, st, sources);
      GoodShape(g, Step(g, st));
      RunCounted(g, Step(g, st), sources);
      RunUnfold(g, st);
    } else {
      RunUnfold(g, st);
    }
  }

  lemma RunUnfold(g: Problem, st: State)
    requires Good(g, st)
    ensures st.bin == |st.bins| ==> Run(g, st) == st
    ensures st.bin < |st.bins| ==> |st.bins| == BinCount(g.radius) && Good(g, Step(g, st))
                                   && Run(g, st) == Run(g, Step(g, st))
  {
    hide Rank, Norm, Inv, Step;
    if st.bin < |st.bins| {
      StepKeepsGood(g, st);
    }
  }

  /** At most one examination per obstacle and four per settled cell, however the bins grow. */
  lemma AtMostFourPerCell(g: Problem, obstacles: seq<Entry>)
    requires Good(g, Initial(g, obstacles))
    ensures var r := Run(g, Initial(g, obstacles));
            r.examined <= |obstacles| + 4 * |r.owner| && r.owner.Keys <= Cells(g.w, g.h)
  {
    hide Rank, Norm, Step;
    var st := Initial(g, obstacles);
    EmptyTotal(BinCount(g.radius));
    TotalUpdate(EmptyBins(g.radius), 0, obstacles);
    RunCounted(g, st, |obstacles|);
    RunEndsEmpty(g, st);
    var r := Run(g, st);
    forall c | c in r.owner
      ensures c in Cells(g.w, g.h)
    {
      SettledWithinRadius(g, r.owner, c);
    }
  }

  lemma {:induction false} EmptyTotal(n: nat)
    ensures Total(seq(n, _ => [])) == 0
  {
    if n > 0 {
      var e: seq<seq<Entry>> := seq(n, _ => []);
      assert e[1..] == seq(n - 1, _ => []);
      EmptyTotal(n - 1);
    }
  }
}
