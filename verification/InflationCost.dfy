/** `computeCost`: from the distance to an obstacle to a cell cost. */
module InflationCost {
  import opened Reals
  import opened CostValues

  /** The library's square root, on whole numbers, and exponential. */
  datatype Library = Library(sqrt: nat -> real, exp: real -> real) {
    ghost predicate Sound() {
      && (forall n: nat :: sqrt(n) >= 0.0 && sqrt(n) * sqrt(n) == n as real)
      && (forall x: real :: exp(x) > 0.0)
      && (forall x: real :: x <= 0.0 ==> exp(x) <= 1.0)
      && (forall x: real, y: real :: x <= y ==> exp(x) <= exp(y))
    }

    ghost predicate Grows() {
      forall x: real :: exp(x) >= 1.0 + x
    }
  }

  datatype CostModel = CostModel(lib: Library, resolution: real, inscribedRadius: real, scaling: real) {
    /** A negative scaling factor would make the cost overflow a byte, which the source leaves undefined. */
    ghost predicate Valid() {
      lib.Sound() && resolution > 0.0 && scaling >= 0.0
    }

    function Metres(d2: nat): real {
      lib.sqrt(d2) * resolution
    }

    function Exponent(d2: nat): real {
      -1.0 * scaling * (Metres(d2) - inscribedRadius)
    }

    /** The cost of a cell whose squared distance to its obstacle, in cells, is `d2`. */
    function Cost(d2: nat): (c: Cost)
      requires Valid()
      ensures d2 == 0 <==> c == LETHAL_OBSTACLE
      ensures c <= LETHAL_OBSTACLE
      ensures c == INSCRIBED_INFLATED_OBSTACLE <==> d2 > 0 && Metres(d2) <= inscribedRadius
    {
      if d2 == 0 then
        LETHAL_OBSTACLE
      else if Metres(d2) <= inscribedRadius then
        INSCRIBED_INFLATED_OBSTACLE
      else
        RawInRange(d2);
        Raw(d2).Floor
    }

    /** The costs in numbers: 254 at the obstacle, 253 within the inscribed radius, and 252 times the decay beyond. */
    lemma CostInNumbers(d2: nat)
      requires Valid()
      ensures d2 == 0 ==> Cost(d2) == 254
      ensures d2 > 0 && lib.sqrt(d2) * resolution <= inscribedRadius ==> Cost(d2) == 253
      ensures d2 > 0 && lib.sqrt(d2) * resolution > inscribedRadius ==>
                var x := 252.0 * lib.exp(-1.0 * scaling * (lib.sqrt(d2) * resolution - inscribedRadius));
                Cost(d2) as real <= x < Cost(d2) as real + 1.0
    {
      if d2 > 0 && Metres(d2) > inscribedRadius {
        RawInRange(d2);
      }
    }

    static lemma Scaled(s: real, x: real, y: real)
      requires 0.0 <= s && x <= y
      ensures -1.0 * s * y <= -1.0 * s * x && x * s <= y * s
    {
      ScaledOrder(s, x, y);
      assert x * s == s * x && y * s == s * y && -1.0 * s * y == -(s * y) && -1.0 * s * x == -(s * x);
    }

    lemma FartherInMetres(d2: nat, e2: nat)
      requires Valid() && d2 <= e2
      ensures Metres(d2) <= Metres(e2) && Exponent(e2) <= Exponent(d2)
    {
      SquaresInOrder(lib.sqrt(e2), lib.sqrt(d2));
      Scaled(resolution, lib.sqrt(d2), lib.sqrt(e2));
      Scaled(scaling, Metres(d2) - inscribedRadius, Metres(e2) - inscribedRadius);
    }

    /** Farther from the obstacle the cost is never higher. */
    lemma CostNonincreasing(d2: nat, e2: nat)
      requires Valid() && d2 <= e2
      ensures Cost(e2) <= Cost(d2)
    {
      hide Exponent, Metres;
      FartherInMetres(d2, e2);
    }

    /** What the source casts to a byte beyond the inscribed radius. */
    function Raw(d2: nat): real {
      (INSCRIBED_INFLATED_OBSTACLE - 1) as real * lib.exp(Exponent(d2))
    }

    lemma RawInRange(d2: nat)
      requires Valid() && Metres(d2) > inscribedRadius
      ensures 0.0 < Raw(d2) <= 252.0
    {
      hide Metres;
      var zero, beyond, factor := 0.0, Metres(d2) - inscribedRadius, lib.exp(Exponent(d2));
      Scaled(scaling, zero, beyond);
      assert -1.0 * scaling * zero == zero && Exponent(d2) == -1.0 * scaling * beyond;
      assert 0.0 < factor <= 1.0;
    }

    /** The source's cast of the cost at this distance is defined. */
    predicate Fits(d2: nat) {
      d2 == 0 || Metres(d2) <= inscribedRadius || Raw(d2) < 256.0
    }

    /** A negative factor makes the cost rise with the distance, any other one keeps it within a byte. */
    lemma FitsNearer(d2: nat, e2: nat)
      requires lib.Sound() && resolution > 0.0 && d2 <= e2
      ensures scaling >= 0.0 ==> Fits(d2)
      ensures Fits(e2) ==> Fits(d2)
    {
      hide Metres, Exponent;
      if d2 > 0 && Metres(d2) > inscribedRadius {
        MetresInOrder(d2, e2);
        if scaling >= 0.0 {
          RawInRange(d2);
        } else {
          RisingExponent(d2, e2);
        }
      }
    }

    lemma MetresInOrder(d2: nat, e2: nat)
      requires lib.Sound() && resolution > 0.0 && d2 <= e2
      ensures Metres(d2) <= Metres(e2)
    {
      SquaresInOrder(lib.sqrt(e2), lib.sqrt(d2));
      Scaled(resolution, lib.sqrt(d2), lib.sqrt(e2));
    }

    lemma RisingExponent(d2: nat, e2: nat)
      requires scaling < 0.0 && Metres(d2) <= Metres(e2)
      ensures Exponent(d2) <= Exponent(e2)
    {
      var s, x, y := -scaling, Metres(d2) - inscribedRadius, Metres(e2) - inscribedRadius;
      ScaledOrder(s, x, y);
      assert Exponent(d2) == s * x && Exponent(e2) == s * y;
    }

    /** With a negative factor a cell `n` cells away along an axis, far enough, would cost more than a byte holds. */
    lemma FarEnough() returns (n: nat)
      requires lib.Sound() && lib.Grows() && resolution > 0.0 && scaling < 0.0
      ensures !Fits(n * n)
    {
      hide Times, Over, Exponent, Raw, Metres, Library.Sound, Library.Grows;
      var s := -scaling;
      var u := Over(1.0, s);
      Reciprocal(s);
      n := CellsBeyond(Max(0.0, inscribedRadius) + u, resolution);
      MetresOfSquare(n);
      NoCells(n, resolution);
      TimesInOrder(s, u, Metres(n * n) - inscribedRadius);
      ExponentIs(n * n);
      RawAbove(n * n);
    }

    lemma ExponentIs(d2: nat)
      ensures Exponent(d2) == Times(-scaling, Metres(d2) - inscribedRadius)
    {
      var s, m := -scaling, Metres(d2) - inscribedRadius;
      assert -1.0 * scaling * m == s * m;
    }

    lemma RawAbove(d2: nat)
      requires lib.Grows() && Exponent(d2) >= 1.0
      ensures Raw(d2) >= 256.0
    {
      hide Exponent;
      var e := Exponent(d2);
      assert lib.exp(e) >= 1.0 + e;
    }

    lemma MetresOfSquare(n: nat)
      requires lib.Sound()
      ensures Metres(n * n) == Times(n as real, resolution)
    {
      RootOfSquare(n);
    }

    static lemma NoCells(n: nat, resolution: real)
      ensures n * n == 0 ==> Times(n as real, resolution) == 0.0
    {
      if n > 0 {
        assert n * n > 0;
      }
    }

    lemma RootOfSquare(n: nat)
      requires lib.Sound()
      ensures lib.sqrt(n * n) == n as real
    {
      var r, m := lib.sqrt(n * n), n as real;
      assert r * r == (n * n) as real == m * m;
      SquaresInOrder(r, m);
      SquaresInOrder(m, r);
    }

    static lemma CellsBeyond(distance: real, resolution: real) returns (n: nat)
      requires resolution > 0.0
      ensures Times(n as real, resolution) >= distance
    {
      var q := distance / resolution;
      n := if q < 0.0 then 0 else q.Floor + 1;
      var m := n as real;
      QuotientTimes(distance, resolution);
      ScaledOrder(resolution, q, m);
      assert resolution * q == q * resolution && resolution * m == m * resolution;
    }
  }
}
