/** The update rules against the losses they descend (`getLoss` and `getUpdate` of the hinge and the quantile loss in
    src/loss_functions.cc), and the clamped prediction they start from. */
module LossLaw {
  import opened Learner
  import opened Overshoot

  /** `getLoss` of the quantile loss: an error above the prediction costs `tau`, one below it `1 - tau`. */
  function QuantileLoss(tau: real, p: real, y: real): real {
    if y - p > 0.0 then tau * (y - p) else -(1.0 - tau) * (y - p)
  }

  /** `getLoss` of the hinge loss. */
  function HingeLoss(p: real, y: real): real {
    if 1.0 - y * p > 0.0 then 1.0 - y * p else 0.0
  }

  /** How far the prediction falls short of the margin at `y`, weighted with the label. */
  function MarginGap(p: real, y: real): real {
    if y * (y - p) > 0.0 then y * (y - p) else 0.0
  }

  lemma MinTimes(a: real, b: real, c: real)
    requires c > 0.0
    ensures Min(a, b) * c == Min(a * c, b * c)
  {
    SameSign(b - a, c);
    assert b * c - a * c == (b - a) * c;
  }

  /** One side of the quantile rule, for an error `e` of that side costing `t` a unit. */
  lemma CappedSquare(t: real, etaT: real, e: real)
    requires t > 0.0 && e > 0.0
    ensures t * Min(etaT, e / t) * e == Min(etaT * (t * e), e * e)
  {
    QuotientTimes(e, t);
    assert e / t * (t * e) == e * e by { Assoc(e / t, t, e); }
    PositiveProduct(t, e);
    MinTimes(etaT, e / t, t * e);
    var m := Min(etaT, e / t);
    assert t * m * e == m * (t * e) by { Assoc(m, t, e); }
  }

  lemma Negated(a: real, b: real)
    ensures (-a) * b == a * (-b)
  {
  }

  /** The other side, where the error is negative. */
  lemma CappedSquareBelow(t: real, etaT: real, e: real)
    requires t > 0.0 && e < 0.0
    ensures (-t * Min(etaT, -e / t)) * e == Min(etaT * (-t * e), e * e)
  {
    CappedSquare(t, etaT, -e);
    var m := Min(etaT, -e / t);
    Negated(t * m, e);
    assert -t * m == -(t * m) by { Negated(t, m); }
    Negated(t, e);
    Negated(e, -e);
    assert (-e) * (-e) == e * e;
  }

  function Up(t: real, etaT: real, e: real): real
    requires t > 0.0
  {
    t * Min(etaT, e / t)
  }

  function UpCost(t: real, e: real): real {
    t * e
  }

  lemma RawAbove(tau: real, p: real, y: real, etaT: real)
    requires 0.0 < tau < 1.0 && y - p > 0.0
    ensures QuantileRaw(tau, y, etaT, p) == Up(tau, etaT, y - p) && QuantileLoss(tau, p, y) == UpCost(tau, y - p)
  {
    hide Min;
  }

  function Down(t: real, etaT: real, e: real): real
    requires t > 0.0
  {
    -t * Min(etaT, -e / t)
  }

  function DownCost(t: real, e: real): real {
    -t * e
  }

  lemma RawBelow(tau: real, p: real, y: real, etaT: real)
    requires 0.0 < tau < 1.0 && y - p < 0.0
    ensures QuantileRaw(tau, y, etaT, p) == Down(1.0 - tau, etaT, y - p)
    ensures QuantileLoss(tau, p, y) == DownCost(1.0 - tau, y - p)
  {
    hide Min;
  }

  /** A step `step` on an error `e` that costs `loss`: their product is the rate times the loss, capped at `e * e`. */
  ghost predicate FollowsLoss(step: real, e: real, etaT: real, loss: real) {
    step * e == Min(etaT * loss, e * e)
  }

  /** The same for an update `u` with normalizer `n`. */
  ghost predicate DescendsLoss(u: real, n: real, e: real, etaT: real, loss: real) {
    u * n * e == Min(etaT * loss, e * e)
  }

  lemma Normalized(u: real, step: real, n: real, e: real, etaT: real, loss: real)
    requires n > 0.0 && u == step / n && FollowsLoss(step, e, etaT, loss)
    ensures DescendsLoss(u, n, e, etaT, loss)
  {
    assert u * n == step;
  }

  lemma FollowsAbove(t: real, etaT: real, e: real)
    requires t > 0.0 && e > 0.0
    ensures FollowsLoss(Up(t, etaT, e), e, etaT, UpCost(t, e))
  {
    CappedSquare(t, etaT, e);
  }

  lemma FollowsBelow(t: real, etaT: real, e: real)
    requires t > 0.0 && e < 0.0
    ensures FollowsLoss(Down(t, etaT, e), e, etaT, DownCost(t, e))
  {
    CappedSquareBelow(t, etaT, e);
  }

  lemma NoError(tau: real, p: real, y: real, etaT: real)
    requires 0.0 < tau < 1.0 && y - p == 0.0
    ensures FollowsLoss(QuantileRaw(tau, y, etaT, p), y - p, etaT, QuantileLoss(tau, p, y))
  {
    assert QuantileLoss(tau, p, y) == 0.0 && QuantileRaw(tau, y, etaT, p) == 0.0;
  }

  lemma QuantileRawSquare(tau: real, p: real, y: real, etaT: real)
    requires 0.0 < tau < 1.0
    ensures FollowsLoss(QuantileRaw(tau, y, etaT, p), y - p, etaT, QuantileLoss(tau, p, y))
  {
    hide *;
    if y - p > 0.0 {
      RawAbove(tau, p, y, etaT);
      FollowsAbove(tau, etaT, y - p);
    } else if y - p < 0.0 {
      RawBelow(tau, p, y, etaT);
      FollowsBelow(1.0 - tau, etaT, y - p);
    } else {
      NoError(tau, p, y, etaT);
    }
  }

  /**
   * The quantile update follows its loss: times the normalizer and the error it is the rate times the loss, or the
   * square of the error if that is less.
   */
  lemma QuantileFollowsLoss(tau: real, p: real, y: real, etaT: real, n: real)
    requires 0.0 < tau < 1.0 && n > 0.0
    ensures DescendsLoss(GetUpdate(Quantile(tau), p, y, etaT, n), n, y - p, etaT, QuantileLoss(tau, p, y))
  {
    hide *;
    QuantileNormalized(tau, y, etaT, p, n);
    QuantileRawSquare(tau, p, y, etaT);
    Normalized(GetUpdate(Quantile(tau), p, y, etaT, n), QuantileRaw(tau, y, etaT, p), n, y - p, etaT,
               QuantileLoss(tau, p, y));
  }

  lemma QuantileRests(tau: real, y: real, etaT: real, n: real)
    requires 0.0 < tau < 1.0 && n > 0.0
    ensures GetUpdate(Quantile(tau), y, y, etaT, n) == 0.0
  {
  }

  /** Short of the margin the hinge step is the capped gap, with gap `g` equal to `y` times the error `e`. */
  lemma GapSquare(y: real, e: real, g: real, etaT: real, r: real)
    requires g == y * e && g > 0.0 && y * r == e
    ensures FollowsLoss(y * Min(r, etaT), e, etaT, g)
  {
    assert r * g == e * e by { Assoc(e, y, r); }
    MinTimes(r, etaT, g);
    assert y * Min(r, etaT) * e == Min(r, etaT) * g by { Assoc(Min(r, etaT), y, e); }
  }

  lemma HingeRawIs(p: real, y: real, etaT: real) returns (r: real)
    requires y * (y - p) > 0.0
    ensures y * r == y - p && HingeRaw(y, etaT, p) == y * Min(r, etaT)
  {
    assert y * (y - p) == y * y - y * p && y != 0.0;
    Ratio(y, p);
    r := (y * y - y * p) / (y * y);
  }

  lemma HingeNoGap(p: real, y: real, etaT: real)
    requires y * (y - p) <= 0.0
    ensures HingeRaw(y, etaT, p) == 0.0
  {
    assert y * (y - p) == y * y - y * p;
  }

  lemma HingeRawSquare(p: real, y: real, etaT: real)
    ensures FollowsLoss(HingeRaw(y, etaT, p), y - p, etaT, MarginGap(p, y))
  {
    if y * (y - p) > 0.0 {
      assert MarginGap(p, y) == y * (y - p);
      hide *;
      var r := HingeRawIs(p, y, etaT);
      GapSquare(y, y - p, MarginGap(p, y), etaT, r);
    } else {
      HingeNoGap(p, y, etaT);
    }
  }

  lemma UnitMargin(p: real, y: real)
    requires y == 1.0 || y == -1.0
    ensures MarginGap(p, y) == HingeLoss(p, y)
  {
  }

  lemma OtherMargin(y: real) returns (p: real)
    requires y != 1.0 && y != -1.0
    ensures MarginGap(p, y) != HingeLoss(p, y)
  {
    if y * y < 1.0 {
      p := y;
      assert y * (y - p) == 0.0;
    } else {
      assert (y - 1.0) * (y + 1.0) == y * y - 1.0;
      p := 1.0 / y;
      assert y * p == 1.0;
      assert y * (y - p) == y * y - y * p;
    }
  }

  /** The gap is the loss for exactly two labels: for others the update does not follow `getLoss`. */
  lemma GapIsLossIff(y: real)
    ensures (forall p :: MarginGap(p, y) == HingeLoss(p, y)) <==> y == 1.0 || y == -1.0
  {
    if y == 1.0 || y == -1.0 {
      forall p ensures MarginGap(p, y) == HingeLoss(p, y) { UnitMargin(p, y); }
    } else {
      var p := OtherMargin(y);
    }
  }

  /**
   * The hinge update follows its margin in the same way.
   */
  lemma HingeFollowsLoss(p: real, y: real, etaT: real, n: real)
    requires n > 0.0
    ensures DescendsLoss(GetUpdate(Hinge, p, y, etaT, n), n, y - p, etaT, MarginGap(p, y))
  {
    hide *;
    HingeNormalized(y, etaT, p, n);
    HingeRawSquare(p, y, etaT);
    Normalized(GetUpdate(Hinge, p, y, etaT, n), HingeRaw(y, etaT, p), n, y - p, etaT, MarginGap(p, y));
  }

  /** At the margin and beyond there is no update. */
  lemma HingeRests(p: real, y: real, etaT: real, n: real)
    requires n > 0.0 && y * (y - p) <= 0.0
    ensures GetUpdate(Hinge, p, y, etaT, n) == 0.0
  {
    HingeNormalized(y, etaT, p, n);
    HingeNoGap(p, y, etaT);
  }

  function Distance(a: real, b: real): real {
    if a < b then b - a else a - b
  }

  /** `finalize_prediction` gives the point of the clamp that is nearest to the prediction, and only that one. */
  lemma FinalizeIsNearest(lo: real, hi: real, p: real, x: real)
    requires lo <= x <= hi
    ensures lo <= Finalize(lo, hi, p) <= hi
    ensures Distance(Finalize(lo, hi, p), p) <= Distance(x, p)
    ensures Distance(Finalize(lo, hi, p), p) == Distance(x, p) ==> x == Finalize(lo, hi, p)
  {
  }
}
