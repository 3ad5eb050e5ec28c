# Costmap inflation, denoising and collision monitoring in Navigation2, in Dafny

The project models the parts of Navigation2 in which a short loop carries a long argument, and proves
what those loops promise.

- **Inflation** (`Grid`, `DistanceRank`, `Wavefront`, `WavefrontEnd`, `Sweep`, `LevelTable`,
  `InflationCost`, `InflationCaches`, `InflationSpec`, `InflationLayer`, `Coverage`, `SkewedMap`, `GapMap`).
  The layer grows costs outward from obstacle cells with a bucket queue. `Wavefront` holds the invariant of
  one step, without data structures; `Sweep` runs it on bins; `InflationLayer` is the class with its caches
  and its loops, proved to refine the sweep on the real costmap.
- **Denoising** (`PixelGraph`, `LabelTrees`, `ScanLabels`, `LabelLookups`, `Denoise`, `SinglePixels`,
  `GroupsRemover`, `LabelCapacity`, `DenoiseLayer`). Both filters, the dilation and the two-pass component
  labelling with union-find, are proved to free exactly the obstacle groups below the minimal size.
- **Collision monitor** (`RayCrossing`, `ConvexPolygon`, `Kinematics`, `CollisionTime`, `CollisionMonitor`,
  `ZoneOrder`, `StopPublication`, `MonitorNode`). Point in polygon, the simulated motion, the fold over the safety
  zones and the publication of stops.
- **Ray clipping** (`RayClip`), **range sensor** (`RangeModel`, `RangeLayer`) and **spin** (`Spin`).

Distances between cells are squared integers, so `distance > cell_inflation_radius_` is
`d2 > radius * radius`. Floating-point numbers are reals. Square root, exponential, sine, cosine, hyperbolic
tangent and `hypot` are parameters of which only a few laws are used (`Sound` predicates). Clocks, poses,
sensor data, polygon updates and parameter messages are arguments.

## What the proofs show about the code

- The comment at nav2_costmap_2d/plugins/inflation_layer.cpp:264-266 says a bin may grow while it is being
  swept. It never does: `Wavefront.OffersLandLater` proves that every new entry goes to a strictly later bin.
- Inflation does not always use the nearest obstacle. `SkewedMap.CheaperThanNearest` is a four by four map on
  which it does not. `WavefrontEnd.ExactIf` and `WavefrontEnd.ExactOnlyIf` give a sufficient and a
  necessary condition on the obstacles; where no cell within the radius has two nearest obstacles they are one
  condition (`WavefrontEnd.ExactIff`), which that map meets the hypothesis of and fails.
- A cell within the inflation radius of an obstacle may get no cost at all (`GapMap.CoveredNotSettled`).
  `Coverage.SettledIfServed` and `Coverage.SettledOnlyIfOffered` give a sufficient and a necessary condition on the
  obstacles, for any set of cells known to be exact; where that set surrounds a cell they are one condition
  (`Coverage.SettledIffHanded`).
- A second `onInitialize` of one layer object empties the distance cache but keeps the radius it was built for.
  It is sound iff the new radius is positive and another one (`InflationLayer.Layer.OnInitialize`). Nothing in
  the repository calls it twice: nav2_costmap_2d/src/layer.cpp:66 does so once per layer, and layers are made
  anew on every configuration.
- Any `cost_scaling_factor` is accepted. With a negative one the costs that a layer caches fit a byte iff that of
  the cache's far corner does (`InflationCaches.CacheFitsIff`): they do, for example, where the corner lies within
  the inscribed radius (`InflationCaches.SmallCacheFits`), and do not from some radius on
  (`InflationCaches.SomeCacheOverflows`).
- `maxLabels` reserves too few labels for an 8-linked image of a single row or column with 5, or 7 or more,
  pixels; for all other sizes it suffices (`LabelCapacity.OverflowPossible`, `LabelCapacity.ThinImagesOverflow`,
  `LabelCapacity.BlocksFit`).
- `getLabels` cuts its vector to the number of trees although provisional labels beyond that number are still
  looked up. That happens iff two pixels that start a label are in one group (`LabelLookups.StrayIff`,
  `DenoiseLayer.Layer.Denoise`), as in a U of five pixels (`LabelLookups.UShapeStrays`). The model reads there
  what the storage of the vector still holds.
- A negative `slowdown_ratio` is not refused. The fold then still picks the slowest ratio by magnitude, but the
  result depends on the order of the zones iff two of the slowest ratios are opposite
  (`ZoneOrder.OrderMattersIff`, `ZoneOrder.HalfForwardsOrBack`).
- A negative linear or angular limit is never obeyed (`CollisionMonitor.LimitsObeyed`); it stops the robot iff that
  component of the command is not zero (`CollisionMonitor.LimitStopsIff`).
- A clearing ray that leaves the map exactly through a corner of an upper edge is not traced at all
  (`RayClip.Clip`, `RayClip.DiagonalNotTraced`).
- The range layer's update is not a number for a cell on the axis of a cone without width, unless the reading
  clears or the cell lies beyond the reading's band (`RangeModel.Model.SensorInUnit`,
  `RangeLayer.BeamWithoutWidth`).
- A cell of the range layer that has reached cost 0 stays there until a target point falls on it
  (`RangeLayer.FreeStaysFree`).
- The spin behaviour compares magnitudes, so it also succeeds after turning the wrong way
  (`Spin.WrongWayArrives`); it has turned as commanded iff the accumulated yaw has the command's sign, or both are
  tiny (`Spin.ArrivalIff`). With a negative `rotational_acc_lim` the velocity sent is not a number
  (`Spin.Settings.SpeedBound`).

## Model

| member | source | states |
|---|---|---|
| `Wavefront.SquareCorner` | nav2_costmap_2d/plugins/inflation_layer.cpp:263-313 | the geometric heart of the sweep: a competing obstacle that wins at the fourth corner of a unit square but not beside the popped cell wins at the other neighbour |
| `Wavefront.NearNeighbourSettled` | nav2_costmap_2d/plugins/inflation_layer.cpp:263-313 | when a cell is popped, every neighbour nearer to its source is already settled, at no greater a distance than from that source |
| `Wavefront.OffersLandLater` | nav2_costmap_2d/plugins/inflation_layer.cpp:301-354 | nothing is ever queued in the swept bin or an earlier one |
| `Wavefront.SourcePopsItself` | nav2_costmap_2d/plugins/inflation_layer.cpp:245-282 | an obstacle cell is settled by itself |
| `Wavefront.Settle` | nav2_costmap_2d/plugins/inflation_layer.cpp:267-313 | settling a popped cell and offering its source keeps the whole invariant: local optimality, no holes, bin order, radius |
| `Wavefront.NextBin` | nav2_costmap_2d/plugins/inflation_layer.cpp:261-318 | leaving an exhausted bin keeps the invariant one level higher |
| `Wavefront.Start` | nav2_costmap_2d/plugins/inflation_layer.cpp:245-256 | the scanned obstacles start the sweep in the invariant |
| `WavefrontEnd.NeighbourGainsNothing` | nav2_costmap_2d/plugins/inflation_layer.cpp:263-354 | local optimality at exit: a neighbour within the radius of a settled cell's source is settled at least as near as to that source |
| `WavefrontEnd.SettledWithinRadius` | nav2_costmap_2d/plugins/inflation_layer.cpp:332-354 | every settled cell has a real obstacle within the radius, inherited from a nearer neighbour; obstacles own themselves |
| `WavefrontEnd.ManhattanCoverage` | nav2_costmap_2d/plugins/inflation_layer.cpp:245-354 | a cell `m` moves from an obstacle, `m` within the radius, is settled at distance at most `m` |
| `WavefrontEnd.ExactIf` | nav2_costmap_2d/plugins/inflation_layer.cpp:263-354 | if every covered cell has a neighbour whose nearest obstacles are all its own, every cell gets a nearest obstacle |
| `WavefrontEnd.ExactOnlyIf` | nav2_costmap_2d/plugins/inflation_layer.cpp:263-354 | exactness forces every covered cell to share a nearest obstacle with a nearer neighbour |
| `WavefrontEnd.ExactIff` | nav2_costmap_2d/plugins/inflation_layer.cpp:263-354 | where no cell within the radius of an obstacle has two nearest ones, inflation is exact iff every such cell shares its nearest obstacle with a nearer neighbour |
| `WavefrontEnd.SingleSourceDisc` | nav2_costmap_2d/plugins/inflation_layer.cpp:263-354 | with one obstacle the settled cells are exactly the disc clipped to the map |
| `Coverage.ExactInCore` | nav2_costmap_2d/plugins/inflation_layer.cpp:263-354 | in any set of cells each of which is an obstacle or inherits within the set, every cell is settled by a nearest obstacle |
| `Coverage.SettledIfServed` | nav2_costmap_2d/plugins/inflation_layer.cpp:263-354 | sufficient, for any such set: every cell within the radius is settled if each one outside the set has a neighbour, nearer to its nearest obstacle, all of whose possible obstacles reach it |
| `Coverage.SettledOnlyIfOffered` | nav2_costmap_2d/plugins/inflation_layer.cpp:263-354 | necessary, for any such set: a settled cell has a neighbour one of whose possible obstacles, nearer to that neighbour, reaches it |
| `Coverage.SettledIffHanded` | nav2_costmap_2d/plugins/inflation_layer.cpp:263-354 | a cell whose covered neighbours are in the set, with one nearest obstacle each, is settled iff one of these obstacles reaches it |
| `SkewedMap.NotAlwaysNearest` | nav2_costmap_2d/plugins/inflation_layer.cpp:263-354 | every run on a given map settles a cell at squared distance 9 though an obstacle is at 8 |
| `SkewedMap.NotExact` | nav2_costmap_2d/plugins/inflation_layer.cpp:263-354 | that map refutes exactness; none of its cells has two nearest obstacles, and the condition of the if-and-only-if fails on it |
| `SkewedMap.CheaperThanNearest` | nav2_costmap_2d/plugins/inflation_layer.cpp:263-299 | on a costmap with those obstacles the cell is written with the cost of the farther one |
| `GapMap.CoveredNotSettled` | nav2_costmap_2d/plugins/inflation_layer.cpp:263-354 | on a nine by nine map every run leaves a cell at distance exactly the radius from an obstacle without any inflation |
| `DistanceRank.RankOrder` | nav2_costmap_2d/plugins/inflation_layer.cpp:391-429 | bins are ordered as squared distances between cells are |
| `Sweep.StepSettle` | nav2_costmap_2d/plugins/inflation_layer.cpp:263-313 | examining an unseen entry leaves the swept and the earlier bins as they are |
| `Sweep.StepKeepsGood` | nav2_costmap_2d/plugins/inflation_layer.cpp:261-318 | every step of the nested loops keeps the invariant on the bins |
| `Sweep.StepProgress` | nav2_costmap_2d/plugins/inflation_layer.cpp:261-318 | unsettled cells, bins left and entries left decrease lexicographically although bins grow |
| `Sweep.RunEndsEmpty` | nav2_costmap_2d/plugins/inflation_layer.cpp:204-209 | the assertion "should always be true": all bins are empty after the sweep, in any reachable state |
| `Sweep.AtMostFourPerCell` | nav2_costmap_2d/plugins/inflation_layer.cpp:261-318 | at most one entry per obstacle plus four per settled cell is ever examined |
| `LevelTable.DiscPoints` | nav2_costmap_2d/plugins/inflation_layer.cpp:394-405 | the two loops collect exactly the offsets of the disc |
| `LevelTable.GenerateIntegerDistances` | nav2_costmap_2d/plugins/inflation_layer.cpp:391-429 | each offset of the disc of radius `R + 2` gets the rank of its length; the returned level is the rank of the radius |
| `LevelTable.LevelsOrderOffsets` | nav2_costmap_2d/plugins/inflation_layer.cpp:391-429 | the table is an order isomorphism, 0 only at the origin, bounded by the returned level |
| `LevelTable.EveryLevelUsed` | nav2_costmap_2d/plugins/inflation_layer.cpp:391-429 | no level is skipped |
| `InflationCost.CostModel.Cost` | nav2_costmap_2d/include/nav2_costmap_2d/inflation_layer.hpp:150-165 | lethal exactly at distance 0, inscribed exactly within the inscribed radius |
| `InflationCost.CostModel.CostInNumbers` | nav2_costmap_2d/include/nav2_costmap_2d/inflation_layer.hpp:150-165 | 254 at the obstacle, 253 within the inscribed radius, and beyond it the whole part of 252 times the exponential, written out |
| `InflationCost.CostModel.CostNonincreasing` | nav2_costmap_2d/include/nav2_costmap_2d/inflation_layer.hpp:150-165 | the cost falls with the distance, across all three branches |
| `InflationCaches.FillDistances` | nav2_costmap_2d/plugins/inflation_layer.cpp:366-378 | the loops fill every entry of the distance cache |
| `InflationCaches.FillCosts` | nav2_costmap_2d/plugins/inflation_layer.cpp:380-384 | every entry of the cost cache is the cost of its offset |
| `InflationCaches.CacheFitsIff` | nav2_costmap_2d/plugins/inflation_layer.cpp:380-384 | the costs that a layer of a given radius caches all fit a byte iff the factor is not negative or the cost of the cache's far corner fits |
| `InflationCaches.SomeCacheOverflows` | nav2_costmap_2d/plugins/inflation_layer.cpp:380-384 | for every negative factor there is a radius from which on they do not |
| `InflationCaches.SmallCacheFits` | nav2_costmap_2d/plugins/inflation_layer.cpp:380-384 | with radius 1, resolution 0.05, inscribed radius 0.2 and factor -1 they do |
| `InflationCaches.DistanceLookup` | nav2_costmap_2d/include/nav2_costmap_2d/inflation_layer.hpp:220-227 | the look-up of either sign of the offset is the true squared distance |
| `InflationCaches.CostLookup` | nav2_costmap_2d/include/nav2_costmap_2d/inflation_layer.hpp:237-244 | the look-up is the cost of the true distance |
| `InflationLayer.CellDistance` | nav2_costmap_2d/src/costmap_2d.cpp:253-257 | the least number of cells that spans the distance |
| `InflationLayer.OffsetIndex` | nav2_costmap_2d/plugins/inflation_layer.cpp:348-352 | the unsigned index of the level table wraps round to the true offset iff that offset fits an unsigned integer |
| `InflationLayer.LevelOfOffset` | nav2_costmap_2d/plugins/inflation_layer.cpp:348-352 | that index is in range and the table entry is the bin of the distance |
| `InflationLayer.Layer.ComputeCaches` | nav2_costmap_2d/plugins/inflation_layer.cpp:356-389 | all tables agree with radius, resolution, inscribed radius and scaling factor, or the radius is 0 |
| `InflationLayer.Layer.OnInitialize` | nav2_costmap_2d/plugins/inflation_layer.cpp:89-122 | the first initialisation establishes the invariant; a second one does iff its radius is positive and another: the same radius indexes an emptied cache, radius 0 leaves an emptied cache marked as filled |
| `InflationLayer.Layer.MatchSize` | nav2_costmap_2d/plugins/inflation_layer.cpp:124-133 | all tables agree with the map's resolution, and the invariant holds if the distance cache was sound or the radius is positive |
| `InflationLayer.Layer.OnFootprintChanged` | nav2_costmap_2d/plugins/inflation_layer.cpp:168-175 | all tables agree with the new inscribed radius; the invariant holds iff map and layer resolutions give the same radius in cells |
| `InflationLayer.Layer.Reset` | nav2_costmap_2d/include/nav2_costmap_2d/inflation_layer.hpp:140-145 | keeps the invariant |
| `InflationLayer.Layer.ApplyParameter` | nav2_costmap_2d/plugins/inflation_layer.cpp:444-479 | the parameter takes its value; recomputation is asked for exactly when radius or scaling factor change, reinflation when anything does; the layer is no longer current iff it is switched on or off |
| `InflationLayer.Layer.DynamicParametersCallback` | nav2_costmap_2d/plugins/inflation_layer.cpp:435-487 | any list of parameters keeps the invariant, and any change asks for reinflation |
| `InflationLayer.Layer.Enqueue` | nav2_costmap_2d/plugins/inflation_layer.cpp:332-354 | the array version appends to the bin of the functional queue or rejects |
| `InflationLayer.Layer.OfferNeighbours` | nav2_costmap_2d/plugins/inflation_layer.cpp:301-313 | the four guarded enqueues are the four offers of the functional sweep |
| `InflationLayer.Layer.WriteCost` | nav2_costmap_2d/plugins/inflation_layer.cpp:281-299 | the cell's new cost, inside the box only |
| `InflationLayer.Layer.ProcessEntry` | nav2_costmap_2d/plugins/inflation_layer.cpp:267-313 | the loop body is one step of the functional sweep, with map, seen flags and bins in agreement |
| `InflationLayer.Layer.SweepBins` | nav2_costmap_2d/plugins/inflation_layer.cpp:258-318 | the nested loops terminate in the final state of the functional sweep |
| `InflationLayer.Layer.ScanWindow` | nav2_costmap_2d/plugins/inflation_layer.cpp:245-256 | the first bin holds the window's obstacles in scan order |
| `InflationLayer.Layer.UpdateCosts` | nav2_costmap_2d/plugins/inflation_layer.cpp:193-321 | the costmap becomes its inflation; disabled or with radius 0 nothing changes; the layer is current after an inflation; the invariant is kept |
| `InflationSpec.ScanGood` | nav2_costmap_2d/plugins/inflation_layer.cpp:226-256 | the scan queues exactly the window's obstacle cells |
| `InflationSpec.ObstacleCosts` | nav2_costmap_2d/plugins/inflation_layer.cpp:252-254 | the costs that are inflated are 254, and 255 if unknown cells are to be inflated around |
| `InflationSpec.WindowIs` | nav2_costmap_2d/plugins/inflation_layer.cpp:230-238 | the window holds exactly the cells of the map no more than the radius beside the box |
| `InflationSpec.OwnerFinal` | nav2_costmap_2d/plugins/inflation_layer.cpp:245-318 | the sweep of any map ends in a final state |
| `InflationSpec.CostsOnlyRise` | nav2_costmap_2d/plugins/inflation_layer.cpp:281-299 | cells outside the box keep their cost, known costs never fall, unknown cells only become costly |
| `InflationSpec.ChangedByObstacle` | nav2_costmap_2d/plugins/inflation_layer.cpp:281-299 | every change is the cost of a real obstacle within the radius |
| `InflationSpec.WindowSuffices` | nav2_costmap_2d/plugins/inflation_layer.cpp:222-238 | every obstacle that can matter to the box lies in the scanned window |
| `InflationSpec.CoveredByMoves` | nav2_costmap_2d/plugins/inflation_layer.cpp:222-299 | every cell of the box `d` moves from any obstacle of the whole map, `d` within the radius, costs at least what distance `d` costs, an unknown one too where that cost may replace it |
| `InflationSpec.ExactCosts` | nav2_costmap_2d/plugins/inflation_layer.cpp:263-299 | where inflation is exact no known cell costs less than any obstacle in reach asks for |
| `InflationSpec.ExactCostsIf` | nav2_costmap_2d/plugins/inflation_layer.cpp:263-299 | the same from the condition on the obstacles alone |
| `InflationSpec.ObstaclesKept` | nav2_costmap_2d/plugins/inflation_layer.cpp:248-299 | inflation neither creates nor removes obstacles in the window |
| `InflationSpec.SameOwner` | nav2_costmap_2d/plugins/inflation_layer.cpp:245-318 | a second inflation settles the same cells with the same sources |
| `InflationSpec.Idempotent` | nav2_costmap_2d/plugins/inflation_layer.cpp:226-299 | a second update over the same box changes nothing |
| `PixelGraph.SmallestGroup` | nav2_costmap_2d/plugins/denoise_layer.cpp:159-195 | a group has fewer than two pixels iff its pixel has no obstacle neighbour |
| `PixelGraph.LinkedOffsets` | nav2_costmap_2d/include/nav2_costmap_2d/denoise/image_processing.hpp:786-808 | the neighbours by their offsets, four or eight |
| `PixelGraph.AddBridge` | nav2_costmap_2d/include/nav2_costmap_2d/denoise/image_processing.hpp:573-598 | a new pixel joins exactly the groups of its neighbours |
| `PixelGraph.AddIsolated` | nav2_costmap_2d/include/nav2_costmap_2d/denoise/image_processing.hpp:591-595 | a pixel without links changes no other group |
| `LabelTrees.Redirect` | nav2_costmap_2d/include/nav2_costmap_2d/denoise/image_processing.hpp:522-530 | what redirecting one node does to every root |
| `LabelTrees.Trees.Reset` | nav2_costmap_2d/include/nav2_costmap_2d/denoise/image_processing.hpp:402-421 | only the background label is left |
| `LabelTrees.Trees.MakeLabel` | nav2_costmap_2d/include/nav2_costmap_2d/denoise/image_processing.hpp:428-436 | a fresh one-node tree, or overflow when all labels are used |
| `LabelTrees.Trees.FindRoot` | nav2_costmap_2d/include/nav2_costmap_2d/denoise/image_processing.hpp:514-519 | finds the root |
| `LabelTrees.Trees.SetRoot` | nav2_costmap_2d/include/nav2_costmap_2d/denoise/image_processing.hpp:522-530 | path compression moves the node's tree to the given root and no other node |
| `LabelTrees.Trees.UnionTrees` | nav2_costmap_2d/include/nav2_costmap_2d/denoise/image_processing.hpp:445-456 | exactly the two trees become one, rooted at the smaller root |
| `LabelTrees.Trees.GetLabels` | nav2_costmap_2d/include/nav2_costmap_2d/denoise/image_processing.hpp:465-478 | equal numbers iff same tree, no number skipped; the vector is cut to the number of trees, which loses labels unless every label is a root |
| `LabelLookups.StrayIff` | nav2_costmap_2d/include/nav2_costmap_2d/denoise/image_processing.hpp:869-876 | some pixel's provisional label lies beyond the end of the cut vector iff two distinct label-starting pixels are in one group |
| `LabelLookups.UShapeStrays` | nav2_costmap_2d/include/nav2_costmap_2d/denoise/image_processing.hpp:869-876 | a 4-linked U of five pixels looks up label 2 in a vector of two elements |
| `ScanLabels.ScanBridge` | nav2_costmap_2d/include/nav2_costmap_2d/denoise/image_processing.hpp:573-598 | uniting the neighbours' trees keeps "same root iff connected" |
| `ScanLabels.ScanNew` | nav2_costmap_2d/include/nav2_costmap_2d/denoise/image_processing.hpp:591-595 | a fresh label keeps it too |
| `ScanLabels.OneSuffices` | nav2_costmap_2d/include/nav2_costmap_2d/denoise/image_processing.hpp:573-598 | where the decision tree looks at one neighbour, that neighbour's group is the only one |
| `ScanLabels.TwoSuffice` | nav2_costmap_2d/include/nav2_costmap_2d/denoise/image_processing.hpp:577-585 | where it unites two, there is no third |
| `GroupsRemover.ProcessPixel8` | nav2_costmap_2d/include/nav2_costmap_2d/denoise/image_processing.hpp:566-602 | one pixel of the 8-linked scan keeps the scan invariant or runs out of labels for cause |
| `GroupsRemover.ProcessPixel4` | nav2_costmap_2d/include/nav2_costmap_2d/denoise/image_processing.hpp:620-644 | the same for 4-linked images |
| `GroupsRemover.Scan` | nav2_costmap_2d/include/nav2_costmap_2d/denoise/image_processing.hpp:822-867 | after the scan labels are equivalent iff pixels are connected; overflow iff the image has at least as many label-starting pixels as labels |
| `GroupsRemover.Relabel` | nav2_costmap_2d/include/nav2_costmap_2d/denoise/image_processing.hpp:872-876 | every pixel gets the number of its label, from the cut vector or from the storage beyond its end; the result tells whether any look-up was beyond the end |
| `GroupsRemover.ResolveLabels` | nav2_costmap_2d/include/nav2_costmap_2d/denoise/image_processing.hpp:869-877 | provisional labels become one number per group, with the exact condition for look-ups beyond the vector |
| `GroupsRemover.ConnectedComponents` | nav2_costmap_2d/include/nav2_costmap_2d/denoise/image_processing.hpp:815-878 | two obstacle pixels carry the same mark iff a path of obstacle pixels links them; labels are looked up beyond the vector iff two label-starting pixels are in one group |
| `GroupsRemover.Histogram` | nav2_costmap_2d/include/nav2_costmap_2d/denoise/image_processing.hpp:188-205 | each bin is the number of pixels with that mark, cut off at the limit |
| `GroupsRemover.RemoveGroupsImpl` | nav2_costmap_2d/include/nav2_costmap_2d/denoise/image_processing.hpp:987-1028 | the groups below the minimal size are freed and nothing else changes; on overflow nothing changes; exact condition for look-ups beyond the vector |
| `LabelCapacity.AtMostOnePerBlock` | nav2_costmap_2d/include/nav2_costmap_2d/denoise/image_processing.hpp:496-507 | an 8-linked image starts at most one label per two by two block |
| `LabelCapacity.AtMostOnePerPair` | nav2_costmap_2d/include/nav2_costmap_2d/denoise/image_processing.hpp:492-495 | a 4-linked image starts at most one label per two pixels |
| `LabelCapacity.BlocksFit` | nav2_costmap_2d/include/nav2_costmap_2d/denoise/image_processing.hpp:506-510 | with two rows and two columns the blocks fit the reserved labels |
| `LabelCapacity.CapacitySuffices` | nav2_costmap_2d/include/nav2_costmap_2d/denoise/image_processing.hpp:488-511 | then, and for all 4-linked images, no image overflows |
| `LabelCapacity.OverflowPossible` | nav2_costmap_2d/include/nav2_costmap_2d/denoise/image_processing.hpp:488-511 | some 8-linked image of a size overflows iff the size has more blocks than labels |
| `LabelCapacity.ThinImagesOverflow` | nav2_costmap_2d/include/nav2_costmap_2d/denoise/image_processing.hpp:506-510 | for a single row or column that is 5 pixels, or 7 and more |
| `SinglePixels.ProbeRows` | nav2_costmap_2d/include/nav2_costmap_2d/denoise/image_processing.hpp:663-722 | one row of the structuring element is laid over every row that has one there, with zeros beyond the sides |
| `SinglePixels.Dilate` | nav2_costmap_2d/include/nav2_costmap_2d/denoise/image_processing.hpp:739-808 | the three passes give the greatest of the 4 or 8 neighbours, the pixel itself left out |
| `SinglePixels.MaxDetectsObstacles` | nav2_costmap_2d/plugins/denoise_layer.cpp:160-204 | the greatest neighbour is background iff no neighbour is an obstacle, for both meanings of an unknown pixel |
| `SinglePixels.RemoveSinglePixels` | nav2_costmap_2d/plugins/denoise_layer.cpp:159-195 | the fast filter frees exactly the components of fewer than two pixels |
| `Denoise.NothingToFree` | nav2_costmap_2d/plugins/denoise_layer.cpp:138-141 | a minimal size of one frees nothing |
| `Denoise.ObstacleValues` | nav2_costmap_2d/plugins/denoise_layer.cpp:197-204 | the obstacles among the 256 values are 253, 254, and 255 where unknown counts |
| `Denoise.OnlyFreed` | nav2_costmap_2d/include/nav2_costmap_2d/denoise/image_processing.hpp:1021-1027 | a pixel changes iff it is an obstacle in a group that is too small, and becomes 0 |
| `Denoise.DenoisedTwice` | nav2_costmap_2d/plugins/denoise_layer.cpp:131-149 | a second denoising, for groups no larger, changes nothing: the groups that are kept are kept whole |
| `DenoiseLayer.Layer.RemoveGroups` | nav2_costmap_2d/include/nav2_costmap_2d/denoise/image_processing.hpp:905-985 | 16-bit labels are given up for good iff the image needs more than are reserved or than 65535; failure iff 32-bit ones do not suffice; exact condition for look-ups beyond the vector |
| `DenoiseLayer.TooManyInNumbers` | nav2_costmap_2d/include/nav2_costmap_2d/denoise/image_processing.hpp:402-436 | the 32-bit labels do not suffice iff the image needs more than are reserved or than 4294967295 |
| `DenoiseLayer.Layer.Denoise` | nav2_costmap_2d/plugins/denoise_layer.cpp:131-157 | whichever filter is chosen, the result is the same specification; overflow and look-ups beyond the label vector each iff a condition on the image |
| `DenoiseLayer.NeverFailsUnlessThin` | nav2_costmap_2d/include/nav2_costmap_2d/denoise/image_processing.hpp:488-511 | the filter cannot fail on 4-linked images, nor on 8-linked ones two pixels wide and high, of fewer than 2^32 labels |
| `RayCrossing.IsPointInside` | nav2_collision_monitor/src/polygon.cpp:598-628 | the loop computes the crossing parity of the closed vertex chain; the division is never by zero |
| `RayCrossing.Rotated` | nav2_collision_monitor/src/polygon.cpp:598-628 | any vertex may come first |
| `RayCrossing.ReversedPolygon` | nav2_collision_monitor/src/polygon.cpp:598-628 | the orientation does not matter |
| `RayCrossing.SplitEdge` | nav2_collision_monitor/src/polygon.cpp:598-628 | a further vertex on any edge changes nothing |
| `RayCrossing.CutAlongDiagonal` | nav2_collision_monitor/src/polygon.cpp:598-628 | inside a polygon iff inside exactly one of the parts a diagonal cuts it into |
| `RayCrossing.CrossesIffSide` | nav2_collision_monitor/src/polygon.cpp:613-624 | the computed intersection decides like the side of the edge the point is on |
| `RayCrossing.OutsideBoundingBox` | nav2_collision_monitor/src/polygon.cpp:598-628 | points beyond all vertices in some direction are outside, boundary cases as the comparisons have them |
| `RayCrossing.Triangle` | nav2_collision_monitor/src/polygon.cpp:598-628 | for a triangle the answer is the geometric one, up to the boundary |
| `ConvexPolygon.OutsideHalfPlane` | nav2_collision_monitor/src/polygon.cpp:598-628 | for every polygon, a point that a line strictly separates from all vertices is reported outside |
| `ConvexPolygon.LeftIsReported` | nav2_collision_monitor/src/polygon.cpp:598-628 | a point strictly left of every edge of a convex polygon is reported inside |
| `ConvexPolygon.ReportedNotRight` | nav2_collision_monitor/src/polygon.cpp:598-628 | a point reported inside a convex polygon is strictly right of no edge |
| `Kinematics.TransformPoints` | nav2_collision_monitor/src/kinematics.cpp:22-42 | every point of the buffer is replaced by what the pose sees |
| `Kinematics.SeenIsIsometry` | nav2_collision_monitor/src/kinematics.cpp:22-42 | the transform keeps distances to the robot and between points |
| `Kinematics.SeenInvertsPlaced` | nav2_collision_monitor/src/kinematics.cpp:27-40 | the transform inverts the placing of a point by the pose, `p = R * p' + pose` with the rotation written out, in both orders |
| `Kinematics.SpeedInvariant` | nav2_collision_monitor/src/kinematics.cpp:44-68 | the simulated speed never changes |
| `Kinematics.TwistInvariant` | nav2_collision_monitor/src/kinematics.cpp:44-68 | seen from the simulated robot its velocity is the commanded one throughout |
| `Kinematics.MotionWrittenOut` | nav2_collision_monitor/src/kinematics.cpp:44-68 | the simulated pose is the sum, over the steps, of the commanded velocity turned left by the heading so far; the heading is the sum of the turns |
| `Kinematics.QuarterTurn` | nav2_collision_monitor/src/kinematics.cpp:22-68 | a quarter turn to the left moves forwards first, then turns forwards into leftwards; what was on the left is seen ahead |
| `Kinematics.DisplacementBound` | nav2_collision_monitor/src/kinematics.cpp:44-68 | after `n` steps the robot is at most `n` times step times speed away |
| `Kinematics.ScaledVisitsSamePoses` | nav2_collision_monitor/src/kinematics.cpp:44-68 | a scaled command with steps longer by the inverse ratio visits exactly the same poses |
| `CollisionTime.PointsInside` | nav2_collision_monitor/src/circle.cpp:61-71 | counts the points in the zone, of either shape |
| `CollisionTime.CountIsSize` | nav2_collision_monitor/src/polygon.cpp:226-235 | the count is the size of the set of positions whose points lie in the shape |
| `CollisionTime.ContainsMeans` | nav2_collision_monitor/src/circle.cpp:61-71 | a circle holds the points strictly within its radius, a polygon those the ray-crossing test reports |
| `CollisionTime.GetCollisionTime` | nav2_collision_monitor/src/polygon.cpp:255-299 | the loop over pose, velocity and point buffer computes the specified time |
| `CollisionTime.TimeMeans` | nav2_collision_monitor/src/polygon.cpp:255-299 | the result in numbers of points: 0 if enough are inside already, else one step less than the first pose with enough if that is within the horizon, else minus one |
| `CollisionTime.LeftTurnHits` | nav2_collision_monitor/src/polygon.cpp:255-299 | a robot that turns left runs into a point ahead on its left: the time is one step |
| `CollisionTime.Approach.TimeFromMeaning` | nav2_collision_monitor/src/polygon.cpp:282-298 | a result is the time stamp of the first hitting sample; minus one means no sample within the horizon hits |
| `CollisionTime.Approach.NoHorizon` | nav2_collision_monitor/src/polygon.cpp:277-298 | with a negative horizon the result is 0 or minus one, as the zone is hit already or not |
| `CollisionTime.Approach.StandingStill` | nav2_collision_monitor/src/polygon.cpp:282-295 | with a step of 0 the loop condition holds at every sample and none hits |
| `CollisionTime.Approach.LoopEndsIff` | nav2_collision_monitor/src/polygon.cpp:282-295 | for any step and a horizon that is not negative, the loop ends iff the step is positive or some sample hits |
| `CollisionTime.FarPointsNoCollision` | nav2_collision_monitor/src/polygon.cpp:255-299 | for a circle, points farther than radius plus speed times horizon plus step give minus one |
| `CollisionTime.ApproachGuarantee` | nav2_collision_monitor/src/collision_monitor_node.cpp:593-607 | the scaled command first hits strictly after the horizon; a ratio of 0 is a stop; the ratio lies in 0 to 1 |
| `CollisionTime.SlowerIsSafe` | nav2_collision_monitor/src/collision_monitor_node.cpp:593-607 | any multiple of the command above 0 and no faster than the zone asks for has no hitting sample up to the horizon |
| `CollisionMonitor.CountPoints` | nav2_collision_monitor/src/polygon.cpp:237-253 | the sum over the sources is the count over all their points |
| `CollisionMonitor.CollectPoints` | nav2_collision_monitor/src/polygon.cpp:263-272 | the points of the zone's sources in order |
| `CollisionMonitor.CollectedPoints` | nav2_collision_monitor/src/polygon.cpp:263-272 | the collected points are every point of every named source that has data, one source after the other |
| `CollisionMonitor.Evaluate` | nav2_collision_monitor/src/collision_monitor_node.cpp:524-610 | the ratio a zone asks for, if it is triggered |
| `CollisionMonitor.TriggeredIff` | nav2_collision_monitor/src/collision_monitor_node.cpp:524-610 | a stop, slowdown or limit zone is triggered iff it is enabled, has a shape, and at least the asked number of positions of the collected points lie in it, and asks for 0, its ratio, or its limit ratio; an approach zone asks for its time over its horizon |
| `CollisionMonitor.LimitRatioRespects` | nav2_collision_monitor/src/collision_monitor_node.cpp:553-568 | the limit ratio and every smaller one obey each limit iff that limit is not negative |
| `CollisionMonitor.LimitRatioIsGreatest` | nav2_collision_monitor/src/collision_monitor_node.cpp:553-568 | no greater fraction of the command does |
| `CollisionMonitor.ComparisonPrefersSlower` | nav2_collision_monitor/include/nav2_collision_monitor/types.hpp:30-41 | comparing velocities prefers the multiple of lesser magnitude, unless the command is zero |
| `CollisionMonitor.SlowestRatioIsSlowest` | nav2_collision_monitor/src/collision_monitor_node.cpp:482-508 | the outcome is no faster than 1 and every triggered ratio, and is one of them |
| `CollisionMonitor.SlowestRatioIsLeast` | nav2_collision_monitor/src/collision_monitor_node.cpp:482-508 | for ratios that are not negative it is the minimum of 1 and all of them |
| `CollisionMonitor.OrderIrrelevant` | nav2_collision_monitor/src/collision_monitor_node.cpp:482-508 | the order of the zones does not change the magnitude of the ratio, nor the ratio if none is negative |
| `ZoneOrder.OrderMattersIff` | nav2_collision_monitor/src/collision_monitor_node.cpp:482-508 | for every list of zones: some order gives another ratio iff two triggered zones have opposite ratios, not 0, below 1 and as slow as any |
| `ZoneOrder.VelocityDependsIff` | nav2_collision_monitor/src/collision_monitor_node.cpp:482-508 | some order gives another velocity iff that holds and the command is not zero |
| `ZoneOrder.HalfForwardsOrBack` | nav2_collision_monitor/src/collision_monitor_node.cpp:543-552 | two zones with ratios 0.5 and -0.5 and one point: half the speed forwards or backwards, as they are ordered |
| `CollisionMonitor.StopIsLeast` | nav2_collision_monitor/src/collision_monitor_node.cpp:534-542 | a triggered stop zone makes the ratio 0 |
| `CollisionMonitor.StopStays` | nav2_collision_monitor/src/collision_monitor_node.cpp:486-489 | leaving the loop at the first stop loses nothing |
| `CollisionMonitor.StoppedIff` | nav2_collision_monitor/src/collision_monitor_node.cpp:482-508 | the same of any action the fold may come to |
| `CollisionMonitor.ProcessZones` | nav2_collision_monitor/src/collision_monitor_node.cpp:482-508 | the output is the command times the slowest ratio; the action is a stop, with zero velocity, iff enough collected points lie in an enabled stop zone; the reported zone asked for that ratio |
| `CollisionMonitor.LimitsObeyed` | nav2_collision_monitor/src/collision_monitor_node.cpp:553-577 | the output obeys each linear and angular limit of every triggered zone at once, iff that limit is not negative, and keeps its curvature |
| `CollisionMonitor.LimitStopsIff` | nav2_collision_monitor/src/collision_monitor_node.cpp:553-568 | a limit zone asks for a stop iff a limit that is not positive meets a component of the command that is not zero |
| `CollisionMonitor.ApproachesKept` | nav2_collision_monitor/src/collision_monitor_node.cpp:482-508 | unless the robot is stopped, the resulting command keeps clear of every enabled approach zone up to its horizon, whichever zone decided |
| `CollisionMonitor.NeverFaster` | nav2_collision_monitor/src/collision_monitor_node.cpp:482-508 | no set of zones makes the command faster |
| `StopPublication.Remembers` | nav2_collision_monitor/src/collision_monitor_node.cpp:213-226 | after any run the node's fields are what the trace says |
| `StopPublication.PublicationTrace` | nav2_collision_monitor/src/collision_monitor_node.cpp:213-235 | in every run a processed command is published iff it moves, begins a stretch of stops, or comes no later than the timeout after it began |
| `StopPublication.StretchIsStops` | nav2_collision_monitor/src/collision_monitor_node.cpp:213-235 | a stretch holds stops only and is maximal, also across a deactivation |
| `MonitorNode.GatherData` | nav2_collision_monitor/src/collision_monitor_node.cpp:431-449 | valid iff no enabled source with a timeout fails; the map then holds all points by source name |
| `MonitorNode.NamedPoints` | nav2_collision_monitor/src/collision_monitor_node.cpp:431-449 | a point is listed under a name iff an enabled source of that name has it |
| `MonitorNode.DecidedIsSafe` | nav2_collision_monitor/src/collision_monitor_node.cpp:413-508 | whatever a cycle decides is no faster than the command, and a failed source stops the robot |
| `MonitorNode.Node.constructor` | nav2_collision_monitor/src/collision_monitor_node.cpp:33-38 | the initial state of the trace |
| `MonitorNode.Node.Activate` | nav2_collision_monitor/src/collision_monitor_node.cpp:130-131 | the activation step of the trace |
| `MonitorNode.Node.Deactivate` | nav2_collision_monitor/src/collision_monitor_node.cpp:139-148 | the deactivation step of the trace |
| `MonitorNode.Node.PublishVelocity` | nav2_collision_monitor/src/collision_monitor_node.cpp:213-235 | publication and stop stamp are those of the trace |
| `MonitorNode.Node.Process` | nav2_collision_monitor/src/collision_monitor_node.cpp:413-522 | one cycle: the decision, whether its change is reported, and a step of the publication trace |
| `RayClip.ClipLeft` | nav2_costmap_2d/plugins/obstacle_layer.cpp:692-696 | the first clip moves the end to where the ray leaves on the left; no division by zero |
| `RayClip.ClipBottom` | nav2_costmap_2d/plugins/obstacle_layer.cpp:697-701 | the second keeps what the first did |
| `RayClip.ClipRight` | nav2_costmap_2d/plugins/obstacle_layer.cpp:704-708 | the third keeps the lower bounds |
| `RayClip.ClipTop` | nav2_costmap_2d/plugins/obstacle_layer.cpp:709-713 | the fourth overrides the third's margin and stays below the right edge |
| `RayClip.ExitUnique` | nav2_costmap_2d/plugins/obstacle_layer.cpp:683-713 | the ray leaves the map at one point |
| `RayClip.Clip` | nav2_costmap_2d/plugins/obstacle_layer.cpp:669-721 | for any end the result is that exit point, moved by the margin in one coordinate at most, inside the closed map; an end inside is left alone; the result is a cell of the map iff the ray neither ends on an upper edge nor leaves through one of its corners |
| `RayClip.DiagonalNotTraced` | nav2_costmap_2d/plugins/obstacle_layer.cpp:703-721 | from the middle of a unit map to (2, 2): the ray leaves through the corner and is not traced |
| `RangeModel.Model.GammaInUnit` | nav2_costmap_2d/plugins/range_sensor_layer.cpp:166-173 | the angular weight is a number unless the cone has no width and the cell lies on its axis, and then lies in 0 to 1 |
| `RangeModel.Model.SensorInUnit` | nav2_costmap_2d/plugins/range_sensor_layer.cpp:193-210 | the sensor model is a number iff the cone has a width, or the cell is off its axis, or it lies beyond the band; it is then strictly between 0 and 1, at most one half before the band and at least one half from there on, for every range |
| `RangeModel.Model.SensorLandmarks` | nav2_costmap_2d/plugins/range_sensor_layer.cpp:193-210 | where the weight is a number the branches meet: lowest up to the band, one half at its ends, highest at the reading |
| `RangeModel.Model.SensorWrittenOut` | nav2_costmap_2d/plugins/range_sensor_layer.cpp:166-210 | the three curves of the sensor model and its weight, written out in the library's functions |
| `RangeModel.DenominatorPositive` | nav2_costmap_2d/plugins/range_sensor_layer.cpp:415-418 | the posterior's denominator is positive, for clearing readings too |
| `RangeModel.BayesRule` | nav2_costmap_2d/plugins/range_sensor_layer.cpp:415-427 | the new cost is the posterior of Bayes' rule in 254ths, cut to a whole number |
| `RangeModel.RaisedCell` | nav2_costmap_2d/plugins/range_sensor_layer.cpp:415-427 | evidence of three in four raises an unsure cell from 127 to 190 |
| `RangeModel.UpdatedIsCell` | nav2_costmap_2d/plugins/range_sensor_layer.cpp:411-427 | a cell stays in 0 to 253; clearing frees it; a free cell stays free |
| `RangeModel.UpdatedMonotone` | nav2_costmap_2d/plugins/range_sensor_layer.cpp:415-427 | the update keeps the order of costs |
| `RangeModel.UpdatedDirection` | nav2_costmap_2d/plugins/range_sensor_layer.cpp:415-427 | evidence above one half never lowers a cost, below never raises it |
| `RangeLayer.AfterAll` | nav2_costmap_2d/plugins/range_sensor_layer.cpp:220-232 | over every run the map is defined iff every reading is, and then all cells have stayed in 0 to 253 |
| `RangeLayer.BeamWithoutWidth` | nav2_costmap_2d/plugins/range_sensor_layer.cpp:166-173 | a reading of a beam without width and a cell on its axis leaves the map undefined |
| `RangeLayer.RunKeepsOrder` | nav2_costmap_2d/plugins/range_sensor_layer.cpp:332-429 | the same readings keep two maps in order, and define both or neither |
| `RangeLayer.FreeStaysFree` | nav2_costmap_2d/plugins/range_sensor_layer.cpp:332-429 | a free cell stays free through every defined run without a target on it |
| `RangeLayer.ClearingFrees` | nav2_costmap_2d/plugins/range_sensor_layer.cpp:401-429 | a clearing reading is always defined and frees every cell it touches, whatever else it touches |
| `RangeLayer.Layer.Reset` | nav2_costmap_2d/plugins/range_sensor_layer.cpp:523-530 | every cell goes back to the cost of one half |
| `RangeLayer.Layer.UpdateCell` | nav2_costmap_2d/plugins/range_sensor_layer.cpp:401-429 | one cell gets its posterior, in place, iff that is a number |
| `RangeLayer.Layer.UpdateCostmap` | nav2_costmap_2d/plugins/range_sensor_layer.cpp:332-395 | the target is marked, then the cone's cells are updated in order, as long as the updates are numbers |
| `RangeLayer.Layer.ProcessBuffer` | nav2_costmap_2d/plugins/range_sensor_layer.cpp:220-232 | the buffered messages are applied in order, as long as they are defined |
| `Spin.UnwrapExact` | nav2_behaviors/plugins/spin.cpp:119-124 | two readings give the true rotation iff it is below half a turn, or exactly half a turn shown without wrapping |
| `Spin.TotalRotation` | nav2_behaviors/plugins/spin.cpp:119-127 | over every run the accumulated yaw is the total true rotation, whole turns included |
| `Spin.Arrival` | nav2_behaviors/plugins/spin.cpp:132-136 | success, of any command, means the angle was turned in some direction to within the tolerance, and at most the last cycle's rotation too far |
| `Spin.ArrivalIff` | nav2_behaviors/plugins/spin.cpp:132-136 | success means the commanded rotation, sign included, iff the accumulated yaw has the command's sign or the two together are below the tolerance |
| `Spin.WrongWayArrives` | nav2_behaviors/plugins/spin.cpp:132-136 | a robot that turned by minus one radian succeeds with the command of plus one |
| `Spin.Settings.SpeedBound` | nav2_behaviors/plugins/spin.cpp:138-139 | the speed is a number iff the acceleration limit is not negative; its square is then at most the greater of twice acceleration times remaining angle and the least speed squared, within the configured range, and no less than that allows unless it is the greatest speed; a negative greatest speed is taken as it is |
| `Spin.Behaviour.OnRun` | nav2_behaviors/plugins/spin.cpp:74-97 | tracking starts from the first reading; without a pose nothing changes |
| `Spin.Behaviour.OnCycleUpdate` | nav2_behaviors/plugins/spin.cpp:99-160 | each cycle adds one reading to the tracked run; status and what is sent in every case, in the command's direction, a velocity that is no number included |

## Left out

- Floating-point rounding and exact values of the library functions; reals and a few laws stand for them.
- ROS plumbing: parameters, subscriptions, publishers, services, transforms, lifecycle, logging, mutexes.
- The inflation layer's `updateBounds` and the concurrency between its callbacks and `updateCosts`.
- InflationLayer.Layer.UpdateCosts: radii whose offsets do not fit an unsigned integer, and cell indices beyond 32 bits.
- LevelTable.GenerateIntegerDistances: radii above 46338 cells, whose square overflows a 32-bit integer.
- InflationCost.CostModel.Cost: negative scaling factors, with which costs rise with the distance and need not fit a byte (InflationCaches.CacheFitsIff).
- InflationCost.CostModel.CostNonincreasing: negative scaling factors, for the same reason.
- InflationLayer.Layer.ComputeCaches: negative scaling factors, for the same reason.
- InflationLayer.Layer.ApplyParameter: negative scaling factors, for the same reason.
- InflationLayer.Layer.DynamicParametersCallback: negative scaling factors, for the same reason.
- InflationLayer.Layer.OnInitialize: negative scaling factors, for the same reason.
- InflationLayer.Layer.MatchSize: negative scaling factors, for the same reason.
- Coverage.SettledOnlyIfOffered: where a neighbour may be settled by several obstacles, some of which reach the cell, the necessary condition is weaker than the sufficient one.
- WavefrontEnd.ExactOnlyIf: with ties between nearest obstacles the necessary condition is weaker than the sufficient one, since which obstacle wins then depends on the scan order.
- The image buffer of the denoise layer: row steps of a region of interest, the shared memory buffer and the windows at the image border are an array read as background outside.
- GroupsRemover.Histogram: an empty image gives a histogram of zeros rather than an empty vector, which nothing reads.
- GroupsRemover.Relabel: a look-up beyond the end of the vector is undefined in C++; the model says when it happens and takes the value that the vector's storage still holds.
- CollisionTime.GetCollisionTime: a simulation step that is not positive, with which the source's loop need not end (CollisionTime.Approach.LoopEndsIff).
- CollisionMonitor.Evaluate: approach zones with such a step.
- CollisionMonitor.ProcessZones: approach zones with such a step.
- MonitorNode.Node.Process: approach zones with such a step.
- `updatePolygon`, velocity-dependent polygons and the transformation of polygons between frames; zones come with their shape.
- RayClip.Clip: `raytraceLine` and the clearing of cells along the clipped ray.
- RangeLayer.Layer.UpdateCell: the byte an update that is not a number leaves behind, which C++ does not define.
- The range layer's choice of cells for a cone, its bounds and its copy into the master grid; the touched cells of a reading are an argument.
- Spin's forward collision check; its answer is an argument.
- AMCL, the controller and behaviour servers, the behaviour tree engine, the smoothers and the planners.
