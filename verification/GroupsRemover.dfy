/** `removeGroups`: the segmentation-based filter, by the labelling of connected components. */
module GroupsRemover {
  import opened CostValues
  import opened Grid
  import opened PixelGraph
  import opened LabelTrees
  import opened ScanLabels
  import opened LabelLookups
  import opened Denoise

  predicate Inside<T>(image: array2<T>, c: Cell) {
    InGrid(image.Length1, image.Length0, c)
  }

  /** Outside the image there is background. */
  predicate Obstacle(noInfo: bool, image: array2<Cost>, c: Cell)
    reads image
  {
    Inside(image, c) && !IsBackground(noInfo, image[c.y, c.x])
  }

  /** The scan has labelled the pixels before `e`. */
  ghost predicate LabelledTo(marks: array2<nat>, obs: set<Cell>, lab: map<Cell, nat>, e: Cell)
    reads marks
  {
    forall c | Inside(marks, c) && Before(c, e) ::
      (c in obs ==> c in lab) && marks[c.y, c.x] == if c in obs then lab[c] else 0
  }

  /** Where the scan stands before pixel `e`. */
  ghost predicate ScannedTo(way: Connectivity, obs: set<Cell>, marks: array2<nat>, trees: Trees,
                            lab: map<Cell, nat>, e: Cell)
    reads marks, trees
  {
    && trees.Valid()
    && ScanInv(way, Earlier(obs, e), lab, trees.labels)
    && LabelledTo(marks, obs, lab, e)
  }

  /** The pixel is given a label; `overflow` if none is left. */
  method SetLabel(marks: array2<nat>, e: Cell, l: nat, ghost obs: set<Cell>, ghost lab: map<Cell, nat>)
    returns (ghost lab': map<Cell, nat>)
    requires Inside(marks, e) && e in obs && LabelledTo(marks, obs, lab, e)
    modifies marks
    ensures lab' == lab[e := l] && LabelledTo(marks, obs, lab', Cell(e.x + 1, e.y))
  {
    marks[e.y, e.x] := l;
    lab' := lab[e := l];
  }

  lemma EarlierGrows(obs: set<Cell>, e: Cell)
    ensures Earlier(obs, Cell(e.x + 1, e.y)) == Earlier(obs, e) + if e in obs then {e} else {}
  {
  }

  /** The new pixel takes a label of the joint tree of two of its neighbours. */
  method Join(way: Connectivity, marks: array2<nat>, trees: Trees, e: Cell, m: Cell, n: Cell,
              ghost obs: set<Cell>, ghost lab: map<Cell, nat>)
    returns (ghost lab': map<Cell, nat>)
    requires Inside(marks, e) && e in obs && ScannedTo(way, obs, marks, trees, lab, e)
    requires Inside(marks, m) && Inside(marks, n) && Bridges(way, Earlier(obs, e), e, m, n)
    modifies marks, trees
    ensures trees.labelsSize == old(trees.labelsSize)
    ensures ScannedTo(way, obs, marks, trees, lab', Cell(e.x + 1, e.y))
  {
    hide Connected, Root, Creators, Linked, Forest, United;
    ghost var done := Earlier(obs, e);
    EarlierGrows(obs, e);
    var l := trees.UnionTrees(marks[m.y, m.x], marks[n.y, n.x]);
    ScanBridge(way, done, lab, old(trees.labels), trees.labels, e, m, n, l);
    lab' := SetLabel(marks, e, l, obs, lab);
  }

  /** The new pixel takes the label of a neighbour that touches all groups it links to. */
  method Copy(way: Connectivity, marks: array2<nat>, trees: Trees, e: Cell, m: Cell,
              ghost obs: set<Cell>, ghost lab: map<Cell, nat>)
    returns (ghost lab': map<Cell, nat>)
    requires Inside(marks, e) && e in obs && ScannedTo(way, obs, marks, trees, lab, e)
    requires Inside(marks, m) && Bridges(way, Earlier(obs, e), e, m, m)
    modifies marks
    ensures ScannedTo(way, obs, marks, trees, lab', Cell(e.x + 1, e.y))
  {
    hide Connected, Root, Creators, Linked;
    ghost var done := Earlier(obs, e);
    EarlierGrows(obs, e);
    var l := marks[m.y, m.x];
    ScanBridge(way, done, lab, trees.labels, trees.labels, e, m, m, l);
    lab' := SetLabel(marks, e, l, obs, lab);
  }

  /** The new pixel starts a label. */
  method Begin(way: Connectivity, marks: array2<nat>, trees: Trees, e: Cell,
               ghost obs: set<Cell>, ghost lab: map<Cell, nat>)
    returns (overflow: bool, ghost lab': map<Cell, nat>)
    requires Inside(marks, e) && e in obs && ScannedTo(way, obs, marks, trees, lab, e)
    requires forall q | q in Earlier(obs, e) :: !Linked(way, e, q)
    modifies marks, trees
    ensures trees.labelsSize == old(trees.labelsSize) && trees.Valid()
    ensures overflow ==> |Creators(way, obs)| >= trees.labelsSize
    ensures !overflow ==> ScannedTo(way, obs, marks, trees, lab', Cell(e.x + 1, e.y))
  {
    hide Connected, Root, Linked, Creators;
    ghost var done := Earlier(obs, e);
    EarlierGrows(obs, e);
    var l;
    lab' := lab;
    overflow, l := trees.MakeLabel();
    ScanNew(way, done, lab, old(trees.labels), e);
    if overflow {
      CreatorsOfPrefix(way, obs, Cell(e.x + 1, e.y));
      return;
    }
    lab' := SetLabel(marks, e, l, obs, lab);
  }

  /** What creates a label in a prefix of the scan creates one in the whole image. */
  lemma CreatorsOfPrefix(way: Connectivity, obs: set<Cell>, e: Cell)
    ensures |Creators(way, Earlier(obs, e))| <= |Creators(way, obs)|
  {
    hide Linked;
    assert Creators(way, Earlier(obs, e)) <= Creators(way, obs);
    Subset(Creators(way, Earlier(obs, e)), Creators(way, obs));
  }

  /** The decision tree for 8-linked images. */
  method ProcessPixel8(noInfo: bool, image: array2<Cost>, marks: array2<nat>, trees: Trees, e: Cell,
                       ghost obs: set<Cell>, ghost lab: map<Cell, nat>)
    returns (overflow: bool, ghost lab': map<Cell, nat>)
    requires image as object != marks && image.Length0 == marks.Length0 && image.Length1 == marks.Length1
    requires obs == Obstacles(noInfo, Contents(image)) && Inside(marks, e) && e in obs
    requires ScannedTo(Way8, obs, marks, trees, lab, e)
    modifies marks, trees
    ensures trees.labelsSize == old(trees.labelsSize) && trees.Valid()
    ensures overflow ==> |Creators(Way8, obs)| >= trees.labelsSize
    ensures !overflow ==> ScannedTo(Way8, obs, marks, trees, lab', Cell(e.x + 1, e.y))
  {
    hide Connected, Root, Creators, ScanInv, LabelledTo, Forest, Touches, IsBackground;
    var a, b, c, d := UpLeft(e), Up(e), UpRight(e), Left(e);
    ghost var done := Earlier(obs, e);
    overflow := false;
    if Obstacle(noInfo, image, b) {
      OneSuffices(Way8, done, e, b);
      lab' := Copy(Way8, marks, trees, e, b, obs, lab);
    } else if Obstacle(noInfo, image, c) {
      if Obstacle(noInfo, image, a) {
        TwoSuffice(Way8, done, e, c, a);
        lab' := Join(Way8, marks, trees, e, c, a, obs, lab);
      } else if Obstacle(noInfo, image, d) {
        TwoSuffice(Way8, done, e, c, d);
        lab' := Join(Way8, marks, trees, e, c, d, obs, lab);
      } else {
        OneSuffices(Way8, done, e, c);
        lab' := Copy(Way8, marks, trees, e, c, obs, lab);
      }
    } else if Obstacle(noInfo, image, a) {
      OneSuffices(Way8, done, e, a);
      lab' := Copy(Way8, marks, trees, e, a, obs, lab);
    } else if Obstacle(noInfo, image, d) {
      OneSuffices(Way8, done, e, d);
      lab' := Copy(Way8, marks, trees, e, d, obs, lab);
    } else {
      NoEarlierLink(Way8, done, e);
      overflow, lab' := Begin(Way8, marks, trees, e, obs, lab);
    }
  }

  lemma NoEarlierLink(way: Connectivity, done: set<Cell>, e: Cell)
    requires forall c | c in done :: Before(c, e)
    requires forall q | q in {UpLeft(e), Up(e), UpRight(e), Left(e)} && Linked(way, e, q) :: q !in done
    ensures forall q | q in done :: !Linked(way, e, q)
  {
    forall q | q in done && Linked(way, e, q)
      ensures q in {UpLeft(e), Up(e), UpRight(e), Left(e)}
    {
    }
  }

  /** The decision tree for 4-linked images. */
  method ProcessPixel4(noInfo: bool, image: array2<Cost>, marks: array2<nat>, trees: Trees, e: Cell,
                       ghost obs: set<Cell>, ghost lab: map<Cell, nat>)
    returns (overflow: bool, ghost lab': map<Cell, nat>)
    requires image as object != marks && image.Length0 == marks.Length0 && image.Length1 == marks.Length1
    requires obs == Obstacles(noInfo, Contents(image)) && Inside(marks, e) && e in obs
    requires ScannedTo(Way4, obs, marks, trees, lab, e)
    modifies marks, trees
    ensures trees.labelsSize == old(trees.labelsSize) && trees.Valid()
    ensures overflow ==> |Creators(Way4, obs)| >= trees.labelsSize
    ensures !overflow ==> ScannedTo(Way4, obs, marks, trees, lab', Cell(e.x + 1, e.y))
  {
    hide Connected, Root, Creators, ScanInv, LabelledTo, Forest, Touches, IsBackground;
    var b, d := Up(e), Left(e);
    ghost var done := Earlier(obs, e);
    overflow := false;
    if Obstacle(noInfo, image, b) {
      if Obstacle(noInfo, image, d) {
        TwoSuffice(Way4, done, e, d, b);
        lab' := Join(Way4, marks, trees, e, d, b, obs, lab);
      } else {
        OneSuffices(Way4, done, e, b);
        lab' := Copy(Way4, marks, trees, e, b, obs, lab);
      }
    } else if Obstacle(noInfo, image, d) {
      OneSuffices(Way4, done, e, d);
      lab' := Copy(Way4, marks, trees, e, d, obs, lab);
    } else {
      NoEarlierLink(Way4, done, e);
      overflow, lab' := Begin(Way4, marks, trees, e, obs, lab);
    }
  }

  // ---------------------------------------------------------------- the scan

  lemma BackgroundScanned(way: Connectivity, obs: set<Cell>, marks: array2<nat>, trees: Trees,
                          lab: map<Cell, nat>, e: Cell)
    requires Inside(marks, e) && e !in obs && marks[e.y, e.x] == 0
    requires ScannedTo(way, obs, marks, trees, lab, e)
    ensures ScannedTo(way, obs, marks, trees, lab, Cell(e.x + 1, e.y))
  {
    hide ScanInv;
    EarlierGrows(obs, e);
    assert Earlier(obs, Cell(e.x + 1, e.y)) == Earlier(obs, e);
    forall c | Inside(marks, c) && Before(c, Cell(e.x + 1, e.y))
      ensures (c in obs ==> c in lab) && marks[c.y, c.x] == if c in obs then lab[c] else 0
    {
      assert c == e || Before(c, e);
    }
  }

  /** The end of a row is the start of the next. */
  lemma RowScanned(way: Connectivity, obs: set<Cell>, marks: array2<nat>, trees: Trees, lab: map<Cell, nat>, row: nat)
    requires (forall c <- obs :: Inside(marks, c))
    requires ScannedTo(way, obs, marks, trees, lab, Cell(marks.Length1, row))
    ensures ScannedTo(way, obs, marks, trees, lab, Cell(0, row + 1))
  {
    hide ScanInv;
    assert Earlier(obs, Cell(0, row + 1)) == Earlier(obs, Cell(marks.Length1, row));
  }

  /** The scanning phase; it fails exactly when the image asks for more labels than there are. */
  method Scan(way: Connectivity, noInfo: bool, image: array2<Cost>, marks: array2<nat>, trees: Trees)
    returns (overflow: bool, ghost lab: map<Cell, nat>)
    requires image as object != marks && image.Length0 == marks.Length0 && image.Length1 == marks.Length1
    requires trees.Valid() && trees.labels == [0]
    modifies marks, trees
    ensures trees.labelsSize == old(trees.labelsSize) && trees.Valid()
    ensures var obs := Obstacles(noInfo, Contents(image));
            && (overflow <==> |Creators(way, obs)| >= trees.labelsSize)
            && (!overflow ==> ScanInv(way, obs, lab, trees.labels)
                              && LabelledTo(marks, obs, lab, Cell(0, image.Length0)))
  {
    hide Connected, Root, Creators, ScanInv, Forest, IsBackground;
    ghost var obs := Obstacles(noInfo, Contents(image));
    NothingScanned(way);
    lab := map[];
    overflow := false;
    assert Earlier(obs, Cell(0, 0)) == {};
    for row := 0 to image.Length0
      invariant trees.labelsSize == old(trees.labelsSize)
      invariant ScannedTo(way, obs, marks, trees, lab, Cell(0, row))
    {
      for column := 0 to image.Length1
        invariant trees.labelsSize == old(trees.labelsSize)
        invariant ScannedTo(way, obs, marks, trees, lab, Cell(column, row))
      {
        overflow, lab := ProcessPixel(way, noInfo, image, marks, trees, Cell(column, row), obs, lab);
        if overflow {
          return;
        }
      }
      RowScanned(way, obs, marks, trees, lab, row);
    }
    assert Earlier(obs, Cell(0, image.Length0)) == obs;
    CountLabels(way, obs, lab, trees);
  }

  lemma CountLabels(way: Connectivity, obs: set<Cell>, lab: map<Cell, nat>, trees: Trees)
    requires trees.Valid() && ScanInv(way, obs, lab, trees.labels)
    ensures |Creators(way, obs)| < trees.labelsSize
  {
  }

  method ProcessPixel(way: Connectivity, noInfo: bool, image: array2<Cost>, marks: array2<nat>, trees: Trees, e: Cell,
                      ghost obs: set<Cell>, ghost lab: map<Cell, nat>)
    returns (overflow: bool, ghost lab': map<Cell, nat>)
    requires image as object != marks && image.Length0 == marks.Length0 && image.Length1 == marks.Length1
    requires obs == Obstacles(noInfo, Contents(image)) && Inside(marks, e)
    requires ScannedTo(way, obs, marks, trees, lab, e)
    modifies marks, trees
    ensures trees.labelsSize == old(trees.labelsSize) && trees.Valid()
    ensures overflow ==> |Creators(way, obs)| >= trees.labelsSize
    ensures !overflow ==> ScannedTo(way, obs, marks, trees, lab', Cell(e.x + 1, e.y))
  {
    hide Connected, Root, Creators, ScanInv, Forest, IsBackground;
    if IsBackground(noInfo, image[e.y, e.x]) {
      overflow, lab' := false, lab;
      marks[e.y, e.x] := 0;
      BackgroundScanned(way, obs, marks, trees, lab, e);
    } else if way.Way8? {
      overflow, lab' := ProcessPixel8(noInfo, image, marks, trees, e, obs, lab);
    } else {
      overflow, lab' := ProcessPixel4(noInfo, image, marks, trees, e, obs, lab);
    }
  }

  // ---------------------------------------------------------------- group sizes

  /** The number of scanned pixels that carry mark `v`. */
  ghost function Carriers(marked: map<Cell, nat>, v: nat, e: Cell): set<Cell> {
    set c | c in marked && marked[c] == v && Before(c, e)
  }

  ghost function Marks(marks: array2<nat>): map<Cell, nat>
    reads marks
  {
    map c | c in Cells(marks.Length1, marks.Length0) :: marks[c.y, c.x]
  }

  function AtMost(n: nat, limit: nat): nat {
    if n < limit then n else limit
  }

  ghost predicate CountedTo(bins: seq<nat>, marked: map<Cell, nat>, limit: nat, e: Cell) {
    forall v: nat | v < |bins| :: bins[v] == AtMost(|Carriers(marked, v, e)|, limit)
  }

  lemma CarriersGrow(marked: map<Cell, nat>, v: nat, e: Cell)
    requires e in marked
    ensures |Carriers(marked, v, Cell(e.x + 1, e.y))| == |Carriers(marked, v, e)| + if v == marked[e] then 1 else 0
  {
    var next := Cell(e.x + 1, e.y);
    assert e !in Carriers(marked, v, e);
    if v == marked[e] {
      assert Carriers(marked, v, next) == Carriers(marked, v, e) + {e};
    } else {
      assert Carriers(marked, v, next) == Carriers(marked, v, e);
    }
  }

  lemma CountOne(bins: seq<nat>, marked: map<Cell, nat>, limit: nat, e: Cell)
    requires e in marked && marked[e] < |bins| && CountedTo(bins, marked, limit, e)
    ensures CountedTo(bins[marked[e] := AtMost(bins[marked[e]] + 1, limit)], marked, limit, Cell(e.x + 1, e.y))
  {
    hide Carriers;
    forall v: nat | v < |bins|
      ensures |Carriers(marked, v, Cell(e.x + 1, e.y))|
              == |Carriers(marked, v, e)| + if v == marked[e] then 1 else 0
    {
      CarriersGrow(marked, v, e);
    }
  }

  /** `histogram`: bins are cut off at `limit`, so they cannot overflow. */
  method Histogram(marks: array2<nat>, binCount: nat, limit: nat) returns (bins: seq<nat>)
    requires forall r, c | 0 <= r < marks.Length0 && 0 <= c < marks.Length1 :: marks[r, c] < binCount
    ensures |bins| == binCount && CountedTo(bins, Marks(marks), limit, Cell(0, marks.Length0))
  {
    ghost var marked := Marks(marks);
    bins := seq(binCount, _ => 0);
    assert forall v: nat :: Carriers(marked, v, Cell(0, 0)) == {};
    for r := 0 to marks.Length0
      invariant |bins| == binCount && CountedTo(bins, marked, limit, Cell(0, r))
    {
      for c := 0 to marks.Length1
        invariant |bins| == binCount && CountedTo(bins, marked, limit, Cell(c, r))
      {
        CountOne(bins, marked, limit, Cell(c, r));
        var pixel := marks[r, c];
        bins := bins[pixel := AtMost(bins[pixel] + 1, limit)];
      }
      assert forall v: nat :: Carriers(marked, v, Cell(0, r + 1)) == Carriers(marked, v, Cell(marks.Length1, r));
    }
  }

  // ---------------------------------------------------------------- freeing the small groups

  /** Final marks: 0 on the background, and one number per group on the obstacles. */
  ghost predicate GroupMarks(way: Connectivity, obs: set<Cell>, marked: map<Cell, nat>) {
    && (forall c <- marked :: marked[c] > 0 <==> c in obs)
    && (forall c <- obs :: c in marked)
    && forall p, q | p in obs && q in obs :: marked[p] == marked[q] <==> Connected(way, obs, p, q)
  }

  /**
   `labels_map[l]` for every pixel. A label beyond the end of the cut vector reads what its storage still holds;
   `stray` tells whether there is one.
   */
  method Relabel(marks: array2<nat>, labelsMap: seq<nat>, storage: seq<nat>) returns (stray: bool)
    requires |labelsMap| <= |storage| && labelsMap == storage[..|labelsMap|]
    requires forall r, c | 0 <= r < marks.Length0 && 0 <= c < marks.Length1 :: marks[r, c] < |storage|
    modifies marks
    ensures forall r, c | 0 <= r < marks.Length0 && 0 <= c < marks.Length1 ::
              old(marks[r, c]) < |storage| && marks[r, c] == storage[old(marks[r, c])]
    ensures !stray <==> forall r, c | 0 <= r < marks.Length0 && 0 <= c < marks.Length1 :: old(marks[r, c]) < |labelsMap|
  {
    stray := false;
    for r := 0 to marks.Length0
      invariant forall i, j | 0 <= i < marks.Length0 && 0 <= j < marks.Length1 ::
                  marks[i, j] == if i < r then storage[old(marks[i, j])] else old(marks[i, j])
      invariant !stray <==> forall i, j | 0 <= i < r && 0 <= j < marks.Length1 :: old(marks[i, j]) < |labelsMap|
    {
      for c := 0 to marks.Length1
        invariant forall i, j | 0 <= i < marks.Length0 && 0 <= j < marks.Length1 ::
                    marks[i, j] == if i < r || (i == r && j < c) then storage[old(marks[i, j])] else old(marks[i, j])
        invariant !stray <==> forall i, j | 0 <= i <= r && 0 <= j < marks.Length1 && (i < r || j < c) ::
                    old(marks[i, j]) < |labelsMap|
      {
        var l := marks[r, c];
        if l < |labelsMap| {
          marks[r, c] := labelsMap[l];
        } else {
          marks[r, c] := storage[l];
          stray := true;
        }
      }
    }
  }

  lemma TableSeparatesGroups(way: Connectivity, obs: set<Cell>, lab: map<Cell, nat>, trees: seq<nat>,
                             table: seq<nat>, k: nat, marked: map<Cell, nat>)
    requires ScanInv(way, obs, lab, trees) && Numbered(trees, table, k)
    requires forall c <- obs :: c in marked && marked[c] == table[lab[c]]
    requires forall c <- marked :: c in obs || marked[c] == 0
    ensures GroupMarks(way, obs, marked) && forall c <- marked :: marked[c] < k
  {
    hide Connected, Root, Creators;
    forall p, q | p in obs && q in obs
      ensures marked[p] == marked[q] <==> Connected(way, obs, p, q)
    {
      assert Equivalent(trees, lab, p, q) <==> Connected(way, obs, p, q);
    }
  }

  /** The pixels that carry an obstacle's mark are its group. */
  lemma CarriersAreGroup(way: Connectivity, obs: set<Cell>, marked: map<Cell, nat>, p: Cell, end: Cell)
    requires GroupMarks(way, obs, marked) && p in obs && forall c <- marked :: Before(c, end)
    ensures Carriers(marked, marked[p], end) == Component(way, obs, p)
  {
    hide Connected;
    forall q
      ensures q in Carriers(marked, marked[p], end) <==> q in Component(way, obs, p)
    {
    }
  }

  method FreeNoise(noInfo: bool, marks: array2<nat>, noise: seq<bool>, image: array2<Cost>, ghost m': Picture)
    requires image as object != marks && image.Length0 == marks.Length0 && image.Length1 == marks.Length1
    requires forall r, c | 0 <= r < marks.Length0 && 0 <= c < marks.Length1 :: marks[r, c] < |noise|
    requires m'.Keys == Contents(image).Keys
    requires forall i, j | 0 <= i < image.Length0 && 0 <= j < image.Length1 ::
               m'[Cell(j, i)] == if !IsBackground(noInfo, image[i, j]) && noise[marks[i, j]]
                                 then FREE_SPACE else image[i, j]
    modifies image
    ensures Contents(image) == m'
  {
    hide IsBackground;
    ghost var m := Contents(image);
    for r := 0 to image.Length0
      invariant ConvertedTo(image, m, m', r, 0)
    {
      for c := 0 to image.Length1
        invariant ConvertedTo(image, m, m', r, c)
      {
        if !IsBackground(noInfo, image[r, c]) && noise[marks[r, c]] {
          image[r, c] := FREE_SPACE;
        }
      }
    }
  }

  ghost predicate MarksBelow(marks: array2<nat>, k: nat)
    reads marks
  {
    forall r, c | 0 <= r < marks.Length0 && 0 <= c < marks.Length1 :: marks[r, c] < k
  }

  /** The analysis and the labelling phase: provisional labels become one number per group. */
  method ResolveLabels(way: Connectivity, marks: array2<nat>, trees: Trees,
                       ghost obs: set<Cell>, ghost lab: map<Cell, nat>)
    returns (k: nat, stray: bool)
    requires trees.Valid() && ScanInv(way, obs, lab, trees.labels)
    requires LabelledTo(marks, obs, lab, Cell(0, marks.Length0)) && forall c <- obs :: Inside(marks, c)
    modifies marks, trees
    ensures k > 0 && MarksBelow(marks, k) && GroupMarks(way, obs, Marks(marks))
    ensures stray <==> CreatorsMeet(way, obs)
  {
    hide Connected, Root, Creators, ScanInv, Numbered, GroupMarks, CreatorsMeet, AllRoots;
    ghost var scanned := trees.labels;
    var storage;
    storage, k := trees.GetLabels();
    MarksInTable(way, obs, lab, scanned, storage, k, marks);
    StrayMarks(way, obs, lab, scanned, storage, k, marks);
    stray := Relabel(marks, trees.labels, storage);
    TableSeparatesGroups(way, obs, lab, scanned, storage, k, Marks(marks));
    forall r, c | 0 <= r < marks.Length0 && 0 <= c < marks.Length1
      ensures marks[r, c] < k
    {
      assert Marks(marks)[Cell(c, r)] == marks[r, c];
    }
  }

  /**
   `connectedComponents`: afterwards two obstacle pixels carry the same mark iff they are in one group. `stray`
   tells whether a label was looked up beyond the end of the label vector.
   */
  method ConnectedComponents(way: Connectivity, noInfo: bool, image: array2<Cost>, trees: Trees, size: nat)
    returns (overflow: bool, marks: array2<nat>, k: nat, stray: bool)
    requires size > 0
    modifies trees
    ensures fresh(marks) && marks.Length0 == image.Length0 && marks.Length1 == image.Length1
    ensures overflow <==> |Creators(way, Obstacles(noInfo, Contents(image)))| >= size
    ensures !overflow ==> k > 0 && MarksBelow(marks, k)
                          && GroupMarks(way, Obstacles(noInfo, Contents(image)), Marks(marks))
    ensures stray <==> !overflow && CreatorsMeet(way, Obstacles(noInfo, Contents(image)))
  {
    hide Connected, Root, Creators, ScanInv, IsBackground, GroupMarks, CreatorsMeet, MarksBelow, LabelledTo;
    marks := new nat[image.Length0, image.Length1]((_, _) => 0);
    k, stray := 0, false;
    trees.Reset(size);
    ghost var lab;
    overflow, lab := Scan(way, noInfo, image, marks, trees);
    if !overflow {
      k, stray := ResolveLabels(way, marks, trees, Obstacles(noInfo, Contents(image)), lab);
    }
  }

  /** Some scanned mark lies beyond the cut vector iff two label-starting pixels are in one group. */
  lemma StrayMarks(way: Connectivity, obs: set<Cell>, lab: map<Cell, nat>, trees: seq<nat>,
                   storage: seq<nat>, k: nat, marks: array2<nat>)
    requires ScanInv(way, obs, lab, trees) && Numbered(trees, storage, k) && (k == |storage| <==> AllRoots(trees))
    requires LabelledTo(marks, obs, lab, Cell(0, marks.Length0)) && forall c <- obs :: Inside(marks, c)
    ensures MarksBelow(marks, k) <==> !CreatorsMeet(way, obs)
  {
    hide Connected, Root, Creators, ScanInv, Numbered, CreatorsMeet, AllRoots;
    MarksInTable(way, obs, lab, trees, storage, k, marks);
    StrayIff(way, obs, lab, trees, storage, k);
    if c :| c in obs && lab[c] >= k {
      assert marks[c.y, c.x] == lab[c];
    }
  }

  /**
   The groups are labelled, measured, and the small ones freed; on overflow the image stays as it is. `stray`
   tells whether a label was looked up beyond the end of the label vector.
   */
  method RemoveGroupsImpl(way: Connectivity, noInfo: bool, n: nat, image: array2<Cost>, trees: Trees, size: nat)
    returns (overflow: bool, stray: bool)
    requires size > 0
    modifies image, trees
    ensures overflow <==> |Creators(way, Obstacles(noInfo, old(Contents(image))))| >= size
    ensures overflow ==> Contents(image) == old(Contents(image))
    ensures !overflow ==> Contents(image) == Denoised(way, noInfo, n, old(Contents(image)))
    ensures stray <==> !overflow && CreatorsMeet(way, Obstacles(noInfo, old(Contents(image))))
  {
    hide CreatorsMeet, Connected, Creators, IsBackground, GroupMarks, Component, Carriers;
    ghost var m, obs := Contents(image), Obstacles(noInfo, Contents(image));
    var marks, k;
    overflow, marks, k, stray := ConnectedComponents(way, noInfo, image, trees, size);
    if overflow {
      return;
    }
    var sizes := Histogram(marks, k, n + 1);
    sizes := sizes[0 := 0];
    var noise := seq(k, v requires 0 <= v < |sizes| => sizes[v] < n);
    forall p | p in obs
      ensures Inside(marks, p) && marks[p.y, p.x] < k && (noise[marks[p.y, p.x]] <==> |Component(way, obs, p)| < n)
    {
      MarkedGroup(way, obs, marks, p);
    }
    FreeNoise(noInfo, marks, noise, image, Denoised(way, noInfo, n, m));
  }

  lemma MarkedGroup(way: Connectivity, obs: set<Cell>, marks: array2<nat>, p: Cell)
    requires GroupMarks(way, obs, Marks(marks)) && p in obs
    ensures Inside(marks, p) && marks[p.y, p.x] > 0
    ensures Carriers(Marks(marks), marks[p.y, p.x], Cell(0, marks.Length0)) == Component(way, obs, p)
  {
    hide Connected, Carriers, Component;
    CarriersAreGroup(way, obs, Marks(marks), p, Cell(0, marks.Length0));
  }

  lemma MarksInTable(way: Connectivity, obs: set<Cell>, lab: map<Cell, nat>, trees: seq<nat>,
                     table: seq<nat>, k: nat, marks: array2<nat>)
    requires ScanInv(way, obs, lab, trees) && Numbered(trees, table, k)
    requires LabelledTo(marks, obs, lab, Cell(0, marks.Length0)) && forall c <- obs :: Inside(marks, c)
    ensures 0 < k <= |table| && table[0] == 0
    ensures forall r, c | 0 <= r < marks.Length0 && 0 <= c < marks.Length1 ::
              marks[r, c] < |table| && (Cell(c, r) in obs ==> Cell(c, r) in lab && marks[r, c] == lab[Cell(c, r)])
              && (Cell(c, r) !in obs ==> marks[r, c] == 0)
  {
    forall r, c | 0 <= r < marks.Length0 && 0 <= c < marks.Length1
      ensures marks[r, c] < |table| && (Cell(c, r) in obs ==> Cell(c, r) in lab && marks[r, c] == lab[Cell(c, r)])
              && (Cell(c, r) !in obs ==> marks[r, c] == 0)
    {
      assert Inside(marks, Cell(c, r)) && Before(Cell(c, r), Cell(0, marks.Length0));
    }
  }
}
