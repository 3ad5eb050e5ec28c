/** The range layer's sensor model and its Bayes update of one cell. */
module RangeModel {
  import opened Options
  import opened Reals

  /** The most a cell can hold after an update: the odds of a lethal cell are not defined. */
  const HIGHEST := 253

  lemma TimesInUnit(a: real, b: real)
    requires 0.0 <= a <= 1.0 && 0.0 <= b <= 1.0
    ensures 0.0 <= Times(a, b) <= a && Times(a, b) <= b
    ensures a > 0.0 && b > 0.0 ==> Times(a, b) > 0.0
    ensures a == 0.0 || b == 0.0 ==> Times(a, b) == 0.0
  {
    hide Times;
    var c, d := 1.0 - a, 1.0 - b;
    SignOfTimes(a, b);
    SignOfTimes(a, d);
    SignOfTimes(b, c);
    Complement(a, b);
  }

  lemma Complement(a: real, b: real)
    ensures Times(a, 1.0 - b) == a - Times(a, b)
    ensures Times(b, 1.0 - a) == b - Times(a, b)
  {
  }

  lemma OverInUnit(a: real, b: real)
    requires b > 0.0 && -b <= a <= b
    ensures -1.0 <= Over(a, b) <= 1.0
    ensures a < b ==> Over(a, b) < 1.0
    ensures 0.0 <= a ==> 0.0 <= Over(a, b)
  {
    var q := a / b;
    var above, below := q - 1.0, q + 1.0;
    QuotientTimes(a, b);
    SignOfProduct(q, b);
    SignOfProduct(above, b);
    SignOfProduct(below, b);
    assert above * b == a - b && below * b == a + b;
  }

  lemma SquareInUnit(a: real)
    requires -1.0 <= a <= 1.0
    ensures 0.0 <= Times(a, a) <= 1.0
  {
    if a >= 0.0 {
      TimesInUnit(a, a);
    } else {
      var b := -a;
      TimesInUnit(b, b);
      assert b * b == a * a;
    }
  }

  // ---------------------------------------------------------------- the sensor model

  /** `tanh` of the library, the layer's resolution and the shape parameter of the model. */
  datatype Model = Model(tanh: real -> real, resolution: real, phiV: real) {
    function Tanh(a: real): real {
      tanh(a)
    }

    ghost predicate Sound() {
      resolution > 0.0 && forall a: real {:trigger Tanh(a)} :: -1.0 < tanh(a) < 1.0
    }

    /** Half the width of the band of distances around a reading. */
    function Width(r: real): real {
      Times(resolution, r)
    }

    /** The angular weight; none where the source divides zero by zero. */
    function Gamma(maxAngle: real, theta: real): Option<real> {
      if theta > maxAngle || -theta > maxAngle then Some(0.0)
      else if maxAngle == 0.0 then None
      else var q := Over(theta, maxAngle); Some(1.0 - Times(q, q))
    }

    function Delta(phi: real): real {
      1.0 - (1.0 + Tanh(2.0 * (phi - phiV))) / 2.0
    }

    /** The weight given to the reading for a cell at distance `phi` and angle `theta`. */
    function Weight(maxAngle: real, phi: real, theta: real): Option<real> {
      match Gamma(maxAngle, theta)
      case None => None
      case Some(gamma) => Some(Times(Delta(phi), gamma))
    }

    /** Beyond the band the model does not look at the weight. */
    predicate BeyondBand(r: real, phi: real) {
      phi >= r - 2.0 * Width(r) && phi >= r - Width(r) && phi >= r + Width(r)
    }

    /** How likely a cell at distance `phi` and angle `theta` is occupied if the sensor reads `r`, if a number. */
    function Sensor(maxAngle: real, r: real, phi: real, theta: real): Option<real>
      requires Sound() && phi >= 0.0
    {
      if BeyondBand(r, phi) then Some(0.5)
      else match Weight(maxAngle, phi, theta)
        case None => None
        case Some(weight) => Some(Weighted(weight, r, phi))
    }

    /** The three branches that use the weight. */
    function Weighted(weight: real, r: real, phi: real): real
      requires resolution > 0.0 && phi >= 0.0 && !BeyondBand(r, phi)
    {
      var width := Width(r);
      if phi >= 0.0 && phi < r - 2.0 * width then Times(1.0 - weight, 0.5)
      else if phi < r - width then
        WidthPositive(r, phi);
        var q := Over(phi - (r - 2.0 * width), width);
        Times(weight, 0.5 * Times(q, q)) + Times(1.0 - weight, 0.5)
      else
        WidthPositive(r, phi);
        var j := Over(r - phi, width);
        Times(weight, 1.0 - 0.5 * Times(j, j) - 0.5) + 0.5
    }

    lemma WidthSign(r: real)
      requires resolution > 0.0
      ensures r > 0.0 ==> Width(r) > 0.0
      ensures r < 0.0 ==> Width(r) < 0.0
      ensures r == 0.0 ==> Width(r) == 0.0
    {
      SignOfProduct(resolution, r);
    }

    /** Beyond the first branch, a cell before the far end of the band has a band to lie in. */
    lemma WidthPositive(r: real, phi: real)
      requires resolution > 0.0 && phi >= 0.0 && phi >= r - 2.0 * Width(r)
      ensures phi < r - Width(r) || phi < r + Width(r) ==> Width(r) > 0.0
    {
      hide Width;
      WidthSign(r);
    }

    /** The angular weight is a number unless the cone has no width and the cell lies on its axis. */
    lemma GammaInUnit(maxAngle: real, theta: real)
      ensures var gamma := Gamma(maxAngle, theta);
              && (gamma.Some? <==> maxAngle != 0.0 || theta != 0.0)
              && (gamma.Some? ==> 0.0 <= gamma.value <= 1.0)
    {
      hide Times, Over;
      if !(theta > maxAngle || -theta > maxAngle) && maxAngle != 0.0 {
        OverInUnit(theta, maxAngle);
        SquareInUnit(Over(theta, maxAngle));
      }
    }

    lemma WeightInUnit(maxAngle: real, phi: real, theta: real)
      requires Sound()
      ensures var weight := Weight(maxAngle, phi, theta);
              && (weight.Some? <==> maxAngle != 0.0 || theta != 0.0)
              && (weight.Some? ==> 0.0 <= weight.value < 1.0)
    {
      hide Times, Gamma;
      GammaInUnit(maxAngle, theta);
      var gamma := Gamma(maxAngle, theta);
      assert 0.0 < Delta(phi) < 1.0;
      if gamma.Some? {
        TimesInUnit(Delta(phi), gamma.value);
      }
    }

    /**
     The sensor model is a number unless the cone has no width and the cell lies on its axis and not beyond
     the band; it then never claims certainty.
     */
    lemma SensorInUnit(maxAngle: real, r: real, phi: real, theta: real)
      requires Sound() && phi >= 0.0
      ensures var sensor := Sensor(maxAngle, r, phi, theta);
              && (sensor.Some? <==> maxAngle != 0.0 || theta != 0.0 || BeyondBand(r, phi))
              && (sensor.Some? ==> 0.0 < sensor.value < 1.0)
              && (sensor.Some? && r >= 0.0 && phi < r - Width(r) ==> sensor.value <= 0.5)
              && (sensor.Some? && r >= 0.0 && phi >= r - Width(r) ==> sensor.value >= 0.5)
    {
      hide Weight, Weighted, Width;
      WeightInUnit(maxAngle, phi, theta);
      var weight := Weight(maxAngle, phi, theta);
      WidthSign(r);
      if weight.Some? && !BeyondBand(r, phi) {
        WeightedInUnit(weight.value, r, phi);
      }
    }

    lemma WeightedInUnit(weight: real, r: real, phi: real)
      requires resolution > 0.0 && phi >= 0.0 && !BeyondBand(r, phi) && 0.0 <= weight < 1.0
      ensures 0.0 < Weighted(weight, r, phi) < 1.0
      ensures r >= 0.0 && phi < r - Width(r) ==> Weighted(weight, r, phi) <= 0.5
      ensures r >= 0.0 && phi >= r - Width(r) ==> Weighted(weight, r, phi) >= 0.5
    {
      hide Times, Over, Width;
      var width, half := Width(r), 0.5;
      TimesInUnit(1.0 - weight, half);
      WidthSign(r);
      if phi < r - 2.0 * width {
      } else if phi < r - width {
        WidthPositive(r, phi);
        var q := Over(phi - (r - 2.0 * width), width);
        OverInUnit(phi - (r - 2.0 * width), width);
        SquareInUnit(q);
        TimesInUnit(weight, 0.5 * Times(q, q));
        HalvesApart(weight, 0.5 * Times(q, q));
      } else {
        WidthPositive(r, phi);
        var j := Over(r - phi, width);
        OverInUnit(r - phi, width);
        SquareInUnit(j);
        TimesInUnit(weight, 1.0 - 0.5 * Times(j, j) - 0.5);
        BelowHalf(weight, 1.0 - 0.5 * Times(j, j) - 0.5);
      }
    }

    lemma HalvesApart(weight: real, h: real)
      requires 0.0 <= weight <= 1.0 && h <= 0.5
      ensures Times(weight, h) + Times(1.0 - weight, 0.5) <= 0.5
    {
      var d, half := 0.5 - h, 0.5;
      SignOfProduct(weight, d);
      assert weight * d == weight * half - weight * h;
    }

    lemma BelowHalf(weight: real, x: real)
      requires 0.0 <= weight < 1.0 && 0.0 <= x <= 0.5
      ensures Times(weight, x) < 0.5
    {
      var d, half := 0.5 - x, 0.5;
      SignOfProduct(weight, d);
      assert weight * d == weight * half - weight * x;
    }

    /** The model's shape: low before the band, one half at its near end, highest at the reading, one half beyond. */
    lemma SensorLandmarks(maxAngle: real, r: real, phi: real, theta: real)
      requires Sound() && phi >= 0.0 && r > 0.0
      ensures phi >= r + Width(r) ==> Sensor(maxAngle, r, phi, theta) == Some(0.5)
      ensures Weight(maxAngle, phi, theta).Some? ==>
                var weight, sensor := Weight(maxAngle, phi, theta).value, Sensor(maxAngle, r, phi, theta);
                && (phi <= r - 2.0 * Width(r) ==> sensor == Some(0.5 - 0.5 * weight))
                && (phi == r - Width(r) ==> sensor == Some(0.5))
                && (phi == r ==> sensor == Some(0.5 + 0.5 * weight))
    {
      hide Times, Over, Tanh, Weight, Width;
      WidthSign(r);
      NoShare(Width(r));
      WholeShare(Width(r));
      UnitSquares();
      if Weight(maxAngle, phi, theta).Some? {
        var weight := Weight(maxAngle, phi, theta).value;
        Halves(weight);
        Halves(1.0 - weight);
      }
    }

    /**
     The weight written out: `x` is the argument of `tanh`, `g` the angle in units of the cone's half width, and `c`
     the angular part, which vanishes outside the cone.
     */
    ghost predicate WeightIs(maxAngle: real, phi: real, theta: real, x: real, g: real, c: real, l: real) {
      && maxAngle > 0.0 && x == 2.0 * (phi - phiV) && g * maxAngle == theta
      && c == (if -1.0 <= g <= 1.0 then 1.0 - g * g else 0.0)
      && l == (1.0 - (1.0 + tanh(x)) / 2.0) * c
    }

    lemma WeightWrittenOut(maxAngle: real, phi: real, theta: real, x: real, g: real, c: real, l: real)
      requires WeightIs(maxAngle, phi, theta, x, g, c, l)
      ensures Weight(maxAngle, phi, theta) == Some(l)
    {
      hide Gamma;
      GammaWrittenOut(maxAngle, theta, g);
      var d := 1.0 - (1.0 + tanh(x)) / 2.0;
      assert Delta(phi) == d;
      assert Times(d, c) == l;
    }

    /**
     The three curves of the model for a weight `l`, with the quotients as factors: `a` and `b` are the distances
     from the near end of the band and from the reading in units of the band's half width.
     */
    lemma SensorWrittenOut(maxAngle: real, r: real, phi: real, theta: real, x: real, g: real, c: real, l: real,
                           a: real, b: real)
      requires Sound() && phi >= 0.0 && WeightIs(maxAngle, phi, theta, x, g, c, l)
      requires a * (resolution * r) == phi - (r - 2.0 * (resolution * r)) && b * (resolution * r) == r - phi
      ensures var w := resolution * r;
              Sensor(maxAngle, r, phi, theta) ==
              Some(if phi < r - 2.0 * w then (1.0 - l) * 0.5
                   else if phi < r - w then l * (0.5 * (a * a)) + (1.0 - l) * 0.5
                   else if phi < r + w then l * (1.0 - 0.5 * (b * b) - 0.5) + 0.5
                   else 0.5)
    {
      hide Weight, Weighted, WeightIs;
      WeightWrittenOut(maxAngle, phi, theta, x, g, c, l);
      if !BeyondBand(r, phi) {
        WeightedWrittenOut(l, r, phi, a, b);
      }
    }

    lemma WeightedWrittenOut(l: real, r: real, phi: real, a: real, b: real)
      requires resolution > 0.0 && phi >= 0.0 && !BeyondBand(r, phi)
      requires a * (resolution * r) == phi - (r - 2.0 * (resolution * r)) && b * (resolution * r) == r - phi
      ensures var w := resolution * r;
              Weighted(l, r, phi) ==
              if phi < r - 2.0 * w then (1.0 - l) * 0.5
              else if phi < r - w then l * (0.5 * (a * a)) + (1.0 - l) * 0.5
              else l * (1.0 - 0.5 * (b * b) - 0.5) + 0.5
    {
      hide Over;
      var w := Width(r);
      if phi >= r - 2.0 * w {
        WidthPositive(r, phi);
        SameQuotient(phi - (r - 2.0 * w), w, a);
        SameQuotient(r - phi, w, b);
      }
    }

    lemma GammaWrittenOut(maxAngle: real, theta: real, g: real)
      requires maxAngle > 0.0 && g * maxAngle == theta
      ensures Gamma(maxAngle, theta) == Some(if -1.0 <= g <= 1.0 then 1.0 - g * g else 0.0)
    {
      var above, below := g - 1.0, g + 1.0;
      SignOfProduct(above, maxAngle);
      SignOfProduct(below, maxAngle);
      assert above * maxAngle == theta - maxAngle && below * maxAngle == theta + maxAngle;
      SameQuotient(theta, maxAngle, g);
    }

    static lemma SameQuotient(n: real, d: real, q: real)
      requires d > 0.0 && q * d == n
      ensures Over(n, d) == q
    {
      var e := n / d - q;
      QuotientTimes(n, d);
      assert e * d == 0.0;
      SignOfProduct(e, d);
    }

    lemma Halves(a: real)
      ensures Times(a, 0.5) == 0.5 * a && Times(a, 0.0) == 0.0
    {
    }

    lemma UnitSquares()
      ensures Times(0.0, 0.0) == 0.0 && Times(1.0, 1.0) == 1.0
    {
    }
  }

  // ---------------------------------------------------------------- the Bayes update

  /** As a fraction of a lethal cost. */
  function ToProb(cost: int): real {
    cost as real / 254.0
  }

  /** The cast truncates, which is the floor of what is not negative. */
  function ToCost(p: real): int {
    (p * 254.0).Floor
  }

  function Occupied(sensor: real, prior: real): real {
    Times(sensor, prior)
  }

  function Free(sensor: real, prior: real): real {
    Times(1.0 - sensor, 1.0 - prior)
  }

  predicate Cell(cost: int) {
    0 <= cost <= HIGHEST
  }

  /** The posterior's denominator never vanishes. */
  lemma DenominatorPositive(sensor: real, cost: int)
    requires 0.0 <= sensor < 1.0 && Cell(cost)
    ensures 0.0 <= ToProb(cost) < 1.0
    ensures Occupied(sensor, ToProb(cost)) >= 0.0 && Free(sensor, ToProb(cost)) > 0.0
  {
    hide Times;
    TimesInUnit(sensor, ToProb(cost));
    TimesInUnit(1.0 - sensor, 1.0 - ToProb(cost));
  }

  function Posterior(sensor: real, cost: int): real
    requires 0.0 <= sensor < 1.0 && Cell(cost)
  {
    DenominatorPositive(sensor, cost);
    var occ, free := Occupied(sensor, ToProb(cost)), Free(sensor, ToProb(cost));
    Over(occ, occ + free)
  }

  function Updated(sensor: real, cost: int): int
    requires 0.0 <= sensor < 1.0 && Cell(cost)
  {
    ToCost(Posterior(sensor, cost))
  }

  /**
   The new cost is Bayes' rule, in 254ths and cut to a whole number: with `p` the prior and `e` the evidence that the
   cell is occupied or free, the cost `k` is the greatest with `k * e <= 254 * (s * p)`.
   */
  lemma BayesRule(s: real, cost: int, p: real, e: real, k: real)
    requires 0.0 <= s < 1.0 && 0 <= cost <= 253
    requires p == cost as real / 254.0 && e == s * p + (1.0 - s) * (1.0 - p) && k == Updated(s, cost) as real
    ensures e > 0.0 && k * e <= 254.0 * (s * p) < (k + 1.0) * e
  {
    hide Updated, Posterior;
    PosteriorWrittenOut(s, cost, p, e);
    FloorOfShare(s * p, e, Posterior(s, cost), Updated(s, cost));
  }

  lemma PosteriorWrittenOut(s: real, cost: int, p: real, e: real)
    requires 0.0 <= s < 1.0 && Cell(cost) && p == cost as real / 254.0 && e == s * p + (1.0 - s) * (1.0 - p)
    ensures e > 0.0 && Posterior(s, cost) * e == s * p
    ensures Updated(s, cost) == (Posterior(s, cost) * 254.0).Floor
  {
    hide Over;
    var occ, free := s * p, (1.0 - s) * (1.0 - p);
    DenominatorPositive(s, cost);
    assert ToProb(cost) == p;
    assert Occupied(s, p) == occ && Free(s, p) == free;
    assert Posterior(s, cost) == Over(occ, occ + free);
    OverTimes(occ, occ + free);
  }

  lemma OverTimes(n: real, d: real)
    requires d != 0.0
    ensures Over(n, d) * d == n
  {
    QuotientTimes(n, d);
  }

  lemma FloorOfShare(occ: real, e: real, share: real, k: int)
    requires e > 0.0 && share * e == occ && k == (share * 254.0).Floor
    ensures k as real * e <= 254.0 * occ < (k as real + 1.0) * e
  {
    hide Times;
    var x, m, n := share * 254.0, k as real, k as real + 1.0;
    TimesInOrder(e, m, x);
    TimesInOrder(e, x, n);
    TimesIs(e, m);
    TimesIs(e, n);
    WholeOfShare(share, e);
  }

  lemma WholeOfShare(share: real, e: real)
    ensures Times(e, share * 254.0) == 254.0 * (share * e)
  {
    var occ := share * e;
    assert e * (share * 254.0) == occ * 254.0;
  }

  /** Three chances in four raise an unsure cell from 127 to 190. */
  lemma RaisedCell()
    ensures Updated(0.75, 127) == 190
  {
    var s, cost := 0.75, 127;
    var k := Updated(s, cost) as real;
    BayesRule(s, cost, 0.5, 0.5, k);
  }

  /** More odds for, and fewer against, make a greater share. */
  lemma ShareRises(n: real, m: real, n': real, m': real)
    requires 0.0 <= n <= n' && 0.0 <= m' <= m && n + m > 0.0 && n' + m' > 0.0
    ensures Over(n, n + m) <= Over(n', n' + m')
  {
    var d, d' := n + m, n' + m';
    CrossProducts(n, m, n', m');
    QuotientsInOrder(n, d, n', d');
  }

  lemma CrossProducts(n: real, m: real, n': real, m': real)
    requires 0.0 <= n <= n' && 0.0 <= m' <= m
    ensures n * (n' + m') <= n' * (n + m)
  {
    var e, f := n' - n, m - m';
    SignOfProduct(e, m');
    SignOfProduct(n', f);
    assert n' * m - n * m' == n' * f + e * m';
  }

  lemma QuotientsInOrder(n: real, d: real, n': real, d': real)
    requires d > 0.0 && d' > 0.0 && n * d' <= n' * d
    ensures Over(n, d) <= Over(n', d')
  {
    var p, p' := n / d, n' / d';
    QuotientTimes(n, d);
    QuotientTimes(n', d');
    var k, e := d * d', p' - p;
    SignOfProduct(d, d');
    assert p * k == n * d' && p' * k == n' * d;
    assert e * k == p' * k - p * k;
    NotNegative(e, k);
  }

  lemma NotNegative(e: real, k: real)
    requires k > 0.0 && e * k >= 0.0
    ensures e >= 0.0
  {
    SignOfProduct(e, k);
  }

  lemma CostOrder(p: real, q: real)
    requires p <= q
    ensures ToCost(p) <= ToCost(q)
  {
  }

  lemma CostOfProb(cost: int)
    ensures ToCost(ToProb(cost)) == cost
  {
    assert cost as real / 254.0 * 254.0 == cost as real;
  }

  /** A cell stays below lethal, a clearing reading frees it, and a free cell stays free. */
  lemma UpdatedIsCell(sensor: real, cost: int)
    requires 0.0 <= sensor < 1.0 && Cell(cost)
    ensures Cell(Updated(sensor, cost))
    ensures sensor == 0.0 || cost == 0 ==> Updated(sensor, cost) == 0
  {
    hide Times, Over;
    var prior := ToProb(cost);
    DenominatorPositive(sensor, cost);
    var occ, free := Occupied(sensor, prior), Free(sensor, prior);
    TimesInUnit(sensor, prior);
    OverInUnit(occ, occ + free);
    NoShare(occ + free);
  }

  lemma NoShare(d: real)
    requires d > 0.0
    ensures Over(0.0, d) == 0.0
  {
  }

  lemma WholeShare(d: real)
    requires d > 0.0
    ensures Over(d, d) == 1.0
  {
  }

  /** The update keeps the order of costs. */
  lemma UpdatedMonotone(sensor: real, cost: int, cost': int)
    requires 0.0 <= sensor < 1.0 && Cell(cost) && Cell(cost') && cost <= cost'
    ensures Updated(sensor, cost) <= Updated(sensor, cost')
  {
    hide Times, Over, ToCost;
    DenominatorPositive(sensor, cost);
    DenominatorPositive(sensor, cost');
    var q, q' := ToProb(cost), ToProb(cost');
    TimesRises(sensor, q, q');
    TimesRises(1.0 - sensor, 1.0 - q', 1.0 - q);
    ShareRises(Occupied(sensor, q), Free(sensor, q), Occupied(sensor, q'), Free(sensor, q'));
    CostOrder(Posterior(sensor, cost), Posterior(sensor, cost'));
  }

  lemma TimesRises(k: real, a: real, b: real)
    requires k >= 0.0 && a <= b
    ensures Times(k, a) <= Times(k, b) && Times(a, k) == Times(k, a) && Times(b, k) == Times(k, b)
  {
    ScaledOrder(k, a, b);
  }

  /** Equal odds leave the prior. */
  lemma EvenShare(k: real, q: real)
    requires k > 0.0
    ensures Times(k, q) + Times(k, 1.0 - q) == k && Over(Times(k, q), k) == q
  {
    var n := k * q;
    QuotientTimes(n, k);
    var d := n / k - q;
    assert d * k == 0.0;
    SignOfProduct(d, k);
  }

  /** A reading above one half never lowers a cost and one below never raises it; one half changes nothing. */
  lemma UpdatedDirection(sensor: real, cost: int)
    requires 0.0 <= sensor < 1.0 && Cell(cost)
    ensures sensor >= 0.5 ==> Updated(sensor, cost) >= cost
    ensures sensor <= 0.5 ==> Updated(sensor, cost) <= cost
  {
    hide Times, Over, ToCost;
    var q, against := ToProb(cost), 1.0 - sensor;
    DenominatorPositive(sensor, cost);
    CostOfProb(cost);
    UpdatedIsCell(sensor, cost);
    if sensor >= 0.5 {
      EvenShare(against, q);
      TimesRises(q, against, sensor);
      TimesInUnit(against, q);
      ShareRises(Times(against, q), Times(against, 1.0 - q), Occupied(sensor, q), Free(sensor, q));
      CostOrder(q, Posterior(sensor, cost));
    }
    if 0.0 < sensor <= 0.5 {
      EvenShare(sensor, q);
      TimesRises(1.0 - q, sensor, against);
      TimesInUnit(sensor, 1.0 - q);
      ShareRises(Occupied(sensor, q), Free(sensor, q), Times(sensor, q), Times(sensor, 1.0 - q));
      CostOrder(Posterior(sensor, cost), q);
    }
  }
}
