/** The rank of a squared cell distance among all squared cell distances. */
module DistanceRank {
  import opened Grid

  /** `n` is the squared length of some cell offset. */
  ghost predicate IsSquaredDistance(n: nat) {
    exists o: Cell :: HasLength(o, n)
  }

  predicate HasLength(o: Cell, n: nat) {
    D2(o, Cell(0, 0)) == n
  }

  /** How many squared distances are smaller than `n`. */
  ghost function Rank(n: nat): nat {
    if n == 0 then 0 else Rank(n - 1) + (if IsSquaredDistance(n - 1) then 1 else 0)
  }

  lemma D2IsSquaredDistance(a: Cell, b: Cell)
    ensures IsSquaredDistance(D2(a, b))
  {
    assert HasLength(Cell(a.x - b.x, a.y - b.y), D2(a, b));
  }

  lemma {:induction false} RankMonotone(m: nat, n: nat)
    requires m <= n
    ensures Rank(m) <= Rank(n) <= Rank(m) + (n - m)
    decreases n
  {
    if m < n {
      RankMonotone(m, n - 1);
    }
  }

  /** On squared distances the rank is strictly monotone. */
  lemma RankStrict(m: nat, n: nat)
    requires m < n && IsSquaredDistance(m)
    ensures Rank(m) < Rank(n)
  {
    RankMonotone(m + 1, n);
  }

  /** Between two squared distances with none in between the rank grows by one. */
  lemma {:induction false} RankNext(m: nat, n: nat)
    requires m < n && IsSquaredDistance(m)
    requires forall k: nat | m < k < n :: !IsSquaredDistance(k)
    ensures Rank(n) == Rank(m) + 1
    decreases n
  {
    if m + 1 == n {
      assert Rank(n) == Rank(m) + 1;
    } else {
      RankNext(m, n - 1);
      assert !IsSquaredDistance(n - 1);
    }
  }

  /** The rank is an order isomorphism on squared distances between cells. */
  lemma RankOrder(a: Cell, b: Cell, c: Cell, d: Cell)
    ensures Rank(D2(a, b)) < Rank(D2(c, d)) <==> D2(a, b) < D2(c, d)
    ensures Rank(D2(a, b)) == Rank(D2(c, d)) <==> D2(a, b) == D2(c, d)
  {
    D2IsSquaredDistance(a, b);
    D2IsSquaredDistance(c, d);
    if D2(a, b) < D2(c, d) {
      RankStrict(D2(a, b), D2(c, d));
    } else if D2(c, d) < D2(a, b) {
      RankStrict(D2(c, d), D2(a, b));
    }
  }
}
