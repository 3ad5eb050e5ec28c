/** What denoising means: obstacle groups below the minimal size are freed, everything else stays. */
module Denoise {
  import opened CostValues
  import opened Grid
  import opened PixelGraph

  type Picture = map<Cell, Cost>

  /** `isBackground`. */
  predicate IsBackground(noInfoIsObstacle: bool, pixel: Cost) {
    !(pixel == LETHAL_OBSTACLE || pixel == INSCRIBED_INFLATED_OBSTACLE ||
      (pixel == NO_INFORMATION && noInfoIsObstacle))
  }

  /** The obstacles among the 256 values: lethal, inscribed, and unknown where that counts. */
  lemma ObstacleValues(noInfoIsObstacle: bool, pixel: Cost)
    ensures !IsBackground(noInfoIsObstacle, pixel) <==>
            pixel == 253 || pixel == 254 || (pixel == 255 && noInfoIsObstacle)
  {
  }

  ghost function Contents(image: array2<Cost>): (m: Picture)
    reads image
  {
    map c | c in Cells(image.Length1, image.Length0) :: image[c.y, c.x]
  }

  ghost function Obstacles(noInfoIsObstacle: bool, m: Picture): set<Cell> {
    set c | c in m && !IsBackground(noInfoIsObstacle, m[c])
  }

  /** The picture with every group of fewer than `n` obstacle pixels freed. */
  ghost function Denoised(way: Connectivity, noInfoIsObstacle: bool, n: nat, m: Picture): Picture {
    var obs := Obstacles(noInfoIsObstacle, m);
    map c | c in m :: if c in obs && |Component(way, obs, c)| < n then FREE_SPACE else m[c]
  }

  /** The image has been converted up to column `c` of row `r`. */
  ghost predicate ConvertedTo(image: array2<Cost>, m: Picture, m': Picture, r: int, c: int)
    reads image
  {
    forall i, j | 0 <= i < image.Length0 && 0 <= j < image.Length1 ::
      Cell(j, i) in m && Cell(j, i) in m' &&
      image[i, j] == if i < r || (i == r && j < c) then m'[Cell(j, i)] else m[Cell(j, i)]
  }

  /** With a minimal size of one or less there is nothing to free. */
  lemma NothingToFree(way: Connectivity, noInfoIsObstacle: bool, n: nat, m: Picture)
    requires n <= 1
    ensures Denoised(way, noInfoIsObstacle, n, m) == m
  {
    var obs := Obstacles(noInfoIsObstacle, m);
    forall c | c in obs
      ensures |Component(way, obs, c)| >= 1
    {
      Reflexive(way, obs, c);
      assert c in Component(way, obs, c);
    }
  }

  /** The pixels of groups that are large enough. */
  ghost function Kept(way: Connectivity, obs: set<Cell>, n: nat): set<Cell> {
    set c | c in obs && |Component(way, obs, c)| >= n
  }

  lemma SameComponent(way: Connectivity, obs: set<Cell>, p: Cell, q: Cell)
    requires Connected(way, obs, p, q)
    ensures Component(way, obs, p) == Component(way, obs, q)
  {
    hide Connected;
    forall r | r in obs
      ensures Connected(way, obs, p, r) <==> Connected(way, obs, q, r)
    {
      Symmetric(way, obs, p, q);
      if Connected(way, obs, p, r) {
        Transitive(way, obs, q, p, r);
      }
      if Connected(way, obs, q, r) {
        Transitive(way, obs, p, q, r);
      }
    }
  }

  /** A path from a kept pixel runs through kept pixels. */
  lemma KeptPath(way: Connectivity, obs: set<Cell>, n: nat, path: seq<Cell>, i: nat)
    requires IsPath(way, obs, path) && path[0] in Kept(way, obs, n) && i < |path|
    ensures path[i] in Kept(way, obs, n)
  {
    hide Linked;
    assert PathFromTo(way, obs, path[..i + 1], path[0], path[i]);
    SameComponent(way, obs, path[0], path[i]);
  }

  /** Kept groups are whole: among the kept pixels each has the group it had. */
  lemma KeptComponent(way: Connectivity, obs: set<Cell>, n: nat, p: Cell)
    requires p in Kept(way, obs, n)
    ensures Component(way, Kept(way, obs, n), p) == Component(way, obs, p)
  {
    hide Linked;
    var kept := Kept(way, obs, n);
    forall q
      ensures q in Component(way, kept, p) <==> q in Component(way, obs, p)
    {
      if q in Component(way, kept, p) {
        MorePixels(way, kept, obs, p, q);
      }
      if q in Component(way, obs, p) {
        var path :| PathFromTo(way, obs, path, p, q);
        forall i | 0 <= i < |path|
          ensures path[i] in kept
        {
          KeptPath(way, obs, n, path, i);
        }
        assert PathFromTo(way, kept, path, p, q);
      }
    }
  }

  lemma ObstaclesLeft(way: Connectivity, noInfoIsObstacle: bool, n: nat, m: Picture)
    ensures Obstacles(noInfoIsObstacle, Denoised(way, noInfoIsObstacle, n, m))
            == Kept(way, Obstacles(noInfoIsObstacle, m), n)
  {
    hide Component;
  }

  /** Denoising twice, the second time for groups no larger, is denoising once. */
  lemma DenoisedTwice(way: Connectivity, noInfoIsObstacle: bool, n: nat, k: nat, m: Picture)
    requires k <= n
    ensures var m' := Denoised(way, noInfoIsObstacle, n, m); Denoised(way, noInfoIsObstacle, k, m') == m'
  {
    hide Component, IsBackground;
    var obs, m' := Obstacles(noInfoIsObstacle, m), Denoised(way, noInfoIsObstacle, n, m);
    ObstaclesLeft(way, noInfoIsObstacle, n, m);
    forall c | c in Kept(way, obs, n)
      ensures |Component(way, Kept(way, obs, n), c)| >= k
    {
      KeptComponent(way, obs, n, c);
    }
  }

  /** A changed pixel was an obstacle, in a group that is too small, and is 0 now. */
  lemma OnlyFreed(way: Connectivity, noInfoIsObstacle: bool, n: nat, m: Picture, c: Cell)
    requires c in m
    ensures var m', obs := Denoised(way, noInfoIsObstacle, n, m), Obstacles(noInfoIsObstacle, m);
            && c in m'
            && (m'[c] != m[c] <==> 253 <= m[c] && c in obs && |Component(way, obs, c)| < n)
            && (m'[c] != m[c] ==> m'[c] == 0)
  {
    hide Component;
  }
}
