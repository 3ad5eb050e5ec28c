/** The denoise layer: the two filters behind one entry point, with the label width as state. */
module DenoiseLayer {
  import opened CostValues
  import opened PixelGraph
  import opened LabelTrees
  import opened ScanLabels
  import opened LabelLookups
  import opened Denoise
  import opened SinglePixels
  import opened GroupsRemover
  import opened LabelCapacity

  const LABEL_MAX_16: nat := 0xFFFF
  const LABEL_MAX_32: nat := 0xFFFF_FFFF

  function AtMostLabels(rows: nat, columns: nat, way: Connectivity, limit: nat): nat {
    AtMost(MaxLabels(rows, columns, way), limit)
  }

  /** More labels are started than are reserved for the image, or than the type has. */
  ghost predicate TooManyFor(way: Connectivity, noInfo: bool, image: array2<Cost>, limit: nat)
    reads image
  {
    var n := |Creators(way, Obstacles(noInfo, Contents(image)))|;
    n >= MaxLabels(image.Length0, image.Length1, way) || n >= limit
  }

  lemma TooManyInNumbers(way: Connectivity, noInfo: bool, image: array2<Cost>)
    ensures TooManyLabels(way, noInfo, image) <==> TooManyFor(way, noInfo, image, 4294967295)
  {
    hide Creators, MaxLabels;
  }

  /** More labels are started than even the wide label type can number. */
  ghost predicate TooManyLabels(way: Connectivity, noInfo: bool, image: array2<Cost>)
    reads image
  {
    |Creators(way, Obstacles(noInfo, Contents(image)))|
      >= AtMostLabels(image.Length0, image.Length1, way, LABEL_MAX_32)
  }

  class Layer {
    var minimalGroupSize: nat
    var way: Connectivity
    var noInformationIsObstacle: bool
    /** Once 16-bit labels have not sufficed, 32-bit ones are used for good. */
    var wideLabels: bool
    var trees: Trees

    constructor (groupSizeParameter: int, connectivityParameter: int, noInfo: bool)
      ensures minimalGroupSize == if groupSizeParameter <= 1 then 1 else groupSizeParameter
      ensures way == if connectivityParameter == 4 then Way4 else Way8
      ensures noInformationIsObstacle == noInfo && !wideLabels && fresh(trees)
    {
      minimalGroupSize := if groupSizeParameter <= 1 then 1 else groupSizeParameter;
      way := if connectivityParameter == 4 then Way4 else Way8;
      noInformationIsObstacle, wideLabels := noInfo, false;
      trees := new Trees();
    }

    /** The slow filter: 16-bit labels first, then 32-bit ones; it fails iff these do not suffice. */
    method RemoveGroups(image: array2<Cost>) returns (overflow: bool, stray: bool)
      modifies image, trees, `wideLabels
      ensures overflow <==> old(TooManyLabels(way, noInformationIsObstacle, image))
      ensures overflow ==> Contents(image) == old(Contents(image))
      ensures !overflow ==>
                Contents(image) == Denoised(way, noInformationIsObstacle, minimalGroupSize, old(Contents(image)))
      ensures stray <==> !overflow && old(CreatorsMeet(way, Obstacles(noInformationIsObstacle, Contents(image))))
      ensures wideLabels <==> old(wideLabels) || old(TooManyFor(way, noInformationIsObstacle, image, 65535))
    {
      hide Creators, Denoised, MaxLabels, Contents, CreatorsMeet;
      var rows, columns := image.Length0, image.Length1;
      overflow, stray := true, false;
      if !wideLabels {
        overflow, stray := RemoveGroupsImpl(way, noInformationIsObstacle, minimalGroupSize, image, trees,
                                     AtMostLabels(rows, columns, way, LABEL_MAX_16));
      }
      if overflow {
        wideLabels := true;
        overflow, stray := RemoveGroupsImpl(way, noInformationIsObstacle, minimalGroupSize, image, trees,
                                     AtMostLabels(rows, columns, way, LABEL_MAX_32));
      }
    }

    /**
     Whichever filter runs, the groups below the minimal size are freed and nothing else changes. The slow one
     reads beyond its label vector iff two pixels that start a label are in one group.
     */
    method Denoise(image: array2<Cost>) returns (overflow: bool, stray: bool)
      modifies image, trees, `wideLabels
      ensures overflow <==> minimalGroupSize > 2 && old(TooManyLabels(way, noInformationIsObstacle, image))
      ensures overflow ==> Contents(image) == old(Contents(image))
      ensures !overflow ==>
                Contents(image) == Denoised(way, noInformationIsObstacle, minimalGroupSize, old(Contents(image)))
      ensures stray <==> minimalGroupSize > 2 && !overflow
                         && old(CreatorsMeet(way, Obstacles(noInformationIsObstacle, Contents(image))))
    {
      hide Creators, Denoised, MaxLabels, CreatorsMeet;
      overflow, stray := false, false;
      NothingToFreeIf(way, noInformationIsObstacle, minimalGroupSize, Contents(image));
      if image.Length0 == 0 || image.Length1 == 0 {
        EmptyImage(way, noInformationIsObstacle, minimalGroupSize, image);
        return;
      }
      if minimalGroupSize <= 1 {
        return;
      }
      if minimalGroupSize == 2 {
        RemoveSinglePixels(way, noInformationIsObstacle, image);
      } else {
        overflow, stray := RemoveGroups(image);
      }
    }
  }

  lemma NothingToFreeIf(way: Connectivity, noInfo: bool, n: nat, m: Picture)
    ensures n <= 1 ==> Denoised(way, noInfo, n, m) == m
  {
    hide Denoised;
    if n <= 1 {
      NothingToFree(way, noInfo, n, m);
    }
  }

  /** An empty image has nothing to free and needs no labels. */
  lemma EmptyImage(way: Connectivity, noInfo: bool, n: nat, image: array2<Cost>)
    requires image.Length0 == 0 || image.Length1 == 0
    ensures Denoised(way, noInfo, n, Contents(image)) == Contents(image)
    ensures !TooManyLabels(way, noInfo, image) && !CreatorsMeet(way, Obstacles(noInfo, Contents(image)))
  {
    assert Contents(image) == map[];
    assert Creators(way, Obstacles(noInfo, Contents(image))) == {};
  }

  /** Labels run out only in 8-linked images of a single row or column, or of more than the wide type counts. */
  lemma NeverFailsUnlessThin(way: Connectivity, noInfo: bool, image: array2<Cost>)
    requires way.Way4? || (image.Length0 >= 2 && image.Length1 >= 2)
    requires MaxLabels(image.Length0, image.Length1, way) <= LABEL_MAX_32
    ensures !TooManyLabels(way, noInfo, image)
  {
    hide MaxLabels, Creators;
    if way.Way8? {
      BlocksFit(image.Length0, image.Length1);
    }
    CapacitySuffices(way, image.Length0, image.Length1, Obstacles(noInfo, Contents(image)));
  }
}
