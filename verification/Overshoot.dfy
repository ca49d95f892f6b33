/** When an update of a piecewise-linear loss can pass the label, and exactly when it cannot
    (src/loss_functions.cc with `inline_train` and `finalize_prediction` in src/gd.cc). */
module Overshoot {
  import opened Learner

  /** `q` lies between the old prediction and the label. */
  predicate Between(y: real, p: real, q: real) {
    if p <= y then p <= q <= y else y <= q <= p
  }

  /** `q` moved from `p` towards the margin at the label `y` and not past it; a prediction that is
      already beyond the margin stays. */
  predicate TowardsMargin(y: real, p: real, q: real) {
    || q == p
    || (y > 0.0 && p <= q <= y)
    || (y < 0.0 && y <= q <= p)
  }

  predicate NoOvershoot(loss: Loss, y: real, p: real, q: real) {
    match loss
    case Quantile(_) => Between(y, p, q)
    case Hinge => TowardsMargin(y, p, q)
  }

  /** The prediction after the update, when the normalizer is `n` and an update of one moves it by `gain`. */
  function After(loss: Loss, lo: real, hi: real, y: real, etaT: real, p: real, n: real, gain: real): real
    requires n > 0.0 && (loss.Quantile? ==> 0.0 < loss.tau < 1.0)
  {
    p + GetUpdate(loss, Finalize(lo, hi, p), y, etaT, n) * gain
  }

  /** What normalization leaves of a step: no more than all of it exactly when `gain` is at most `n`. */
  lemma Scaled(a: real, n: real, gain: real)
    requires n > 0.0 && gain >= 0.0
    ensures gain <= n && a >= 0.0 ==> 0.0 <= a / n * gain <= a
    ensures gain <= n && a <= 0.0 ==> a <= a / n * gain <= 0.0
    ensures gain > n && a > 0.0 ==> a / n * gain > a
    ensures gain > n && a < 0.0 ==> a / n * gain < a
    ensures gain > 0.0 && a > 0.0 ==> a / n * gain > 0.0
    ensures gain > 0.0 && a < 0.0 ==> a / n * gain < 0.0
  {
    var b := a / n;
    assert b * n == a;
    SameSign(b, n);
    SameSign(b, gain);
    assert b * gain - b * n == b * (gain - n);
    if gain > n { SameSign(b, gain - n); } else { SameSign(b, n - gain); }
  }

  lemma SameSign(b: real, c: real)
    requires c >= 0.0
    ensures b >= 0.0 ==> b * c >= 0.0
    ensures b <= 0.0 ==> b * c <= 0.0
    ensures c > 0.0 && b > 0.0 ==> b * c > 0.0
    ensures c > 0.0 && b < 0.0 ==> b * c < 0.0
  {
  }

  /** `tau * min(eta, e/tau)` is between 0 and e. */
  lemma CappedStep(t: real, eta: real, e: real)
    requires t > 0.0 && eta >= 0.0 && e >= 0.0
    ensures 0.0 <= t * Min(eta, e / t) <= e
  {
    assert t * (e / t) == e;
    var m := Min(eta, e / t);
    assert e / t >= 0.0;
    assert m <= e / t;
    assert t * m <= t * (e / t);
  }

  /** The un-normalized step of the quantile rule. */
  function QuantileRaw(tau: real, y: real, etaT: real, f: real): real
    requires 0.0 < tau < 1.0
  {
    var e := y - f;
    if e == 0.0 then 0.0
    else if e > 0.0 then tau * Min(etaT, e / tau)
    else -(1.0 - tau) * Min(etaT, -e / (1.0 - tau))
  }

  lemma QuantileStep(tau: real, y: real, etaT: real, f: real)
    requires 0.0 < tau < 1.0 && etaT >= 0.0
    ensures var u := QuantileRaw(tau, y, etaT, f);
      if f <= y then 0.0 <= u <= y - f else y - f <= u <= 0.0
  {
    var e := y - f;
    if e > 0.0 {
      CappedStep(tau, etaT, e);
    } else if e < 0.0 {
      CappedStep(1.0 - tau, etaT, -e);
    }
  }

  /** How far the quantile update moves the prediction, bounded by the clamped error. */
  lemma QuantileDelta(tau: real, lo: real, hi: real, y: real, etaT: real, p: real, n: real, gain: real)
    returns (d: real)
    requires 0.0 < tau < 1.0 && etaT >= 0.0 && 0.0 <= gain <= n && n > 0.0
    ensures After(Quantile(tau), lo, hi, y, etaT, p, n, gain) == p + d
    ensures var e := y - Finalize(lo, hi, p); if e >= 0.0 then 0.0 <= d <= e else e <= d <= 0.0
  {
    var f := Finalize(lo, hi, p);
    hide QuantileRaw, GetUpdate, Finalize;
    var u := QuantileRaw(tau, y, etaT, f);
    d := u / n * gain;
    QuantileNormalized(tau, y, etaT, f, n);
    QuantileStep(tau, y, etaT, f);
    Scaled(u, n, gain);
  }

  lemma BetweenBy(lo: real, hi: real, y: real, p: real, d: real)
    requires lo <= y <= hi
    requires var e := y - Finalize(lo, hi, p); if e >= 0.0 then 0.0 <= d <= e else e <= d <= 0.0
    ensures Between(y, p, p + d)
  {
  }

  /** Quantile loss: with the label inside the clamp and enough of a normalizer the update never passes it. */
  lemma QuantileBetween(tau: real, lo: real, hi: real, y: real, etaT: real, p: real, n: real, gain: real)
    requires 0.0 < tau < 1.0 && etaT >= 0.0 && 0.0 <= gain <= n && n > 0.0 && lo <= y <= hi
    ensures Between(y, p, After(Quantile(tau), lo, hi, y, etaT, p, n, gain))
  {
    var d := QuantileDelta(tau, lo, hi, y, etaT, p, n, gain);
    BetweenBy(lo, hi, y, p, d);
  }

  lemma QuantileNormalized(tau: real, y: real, etaT: real, f: real, n: real)
    requires 0.0 < tau < 1.0 && n > 0.0
    ensures GetUpdate(Quantile(tau), f, y, etaT, n) == QuantileRaw(tau, y, etaT, f) / n
  {
    var e := y - f;
    if e == 0.0 {
    } else if e > 0.0 {
    } else {
    }
  }

  /** The un-normalized step of the hinge rule. */
  function HingeRaw(y: real, etaT: real, f: real): real
  {
    if y * f >= y * y then 0.0 else y * Min((y * y - y * f) / (y * y), etaT)
  }

  lemma HingeNormalized(y: real, etaT: real, f: real, n: real)
    requires n > 0.0
    ensures GetUpdate(Hinge, f, y, etaT, n) == HingeRaw(y, etaT, f) / n
  {
  }

  lemma Ratio(y: real, f: real)
    requires y != 0.0
    ensures y * y != 0.0 && y * ((y * y - y * f) / (y * y)) == y - f
    ensures y > 0.0 ==> (y * f < y * y <==> f < y)
    ensures y < 0.0 ==> (y * f < y * y <==> f > y)
  {
    var yy := Positive(y);
    RatioBy(y, f, yy, (yy - y * f) / yy);
    assert y * f - y * y == y * (f - y);
  }

  lemma RatioBy(y: real, f: real, yy: real, r: real)
    requires y != 0.0 && yy == y * y && yy != 0.0 && r == (yy - y * f) / yy
    ensures y * r == y - f
  {
    QuotientTimes(yy - y * f, yy);
    Assoc(y, y, r);
    assert y * (y - f) == y * y - y * f;
    Cancel(y, y * r, y - f);
  }

  lemma Positive(y: real) returns (yy: real)
    requires y != 0.0
    ensures yy == y * y && yy > 0.0
  {
    if y > 0.0 {
      PositiveProduct(y, y);
      assert y * y > 0.0;
    } else {
      PositiveProduct(-y, -y);
      assert y * y > 0.0;
    }
    yy :| yy == y * y && yy > 0.0;
  }

  lemma PositiveProduct(a: real, b: real)
    requires a > 0.0 && b > 0.0
    ensures a * b > 0.0 && a * b == (-a) * (-b)
  {
  }

  lemma Assoc(a: real, b: real, c: real)
    ensures a * (b * c) == a * b * c
  {
  }

  lemma QuotientTimes(a: real, b: real)
    requires b != 0.0
    ensures b * (a / b) == a
  {
  }

  lemma QuotientSign(a: real, b: real)
    requires a >= 0.0 && b > 0.0
    ensures a / b >= 0.0 && b * (a / b) == a
  {
  }

  lemma Cancel(y: real, a: real, b: real)
    requires y != 0.0 && y * a == y * b
    ensures a == b
  {
    assert y * (a - b) == 0.0;
  }

  /** The step goes towards the label, by at most the distance to it. */
  lemma HingeStep(y: real, etaT: real, f: real)
    requires etaT >= 0.0
    ensures var u := HingeRaw(y, etaT, f);
      if y > 0.0 && f < y then 0.0 <= u <= y - f
      else if y < 0.0 && f > y then y - f <= u <= 0.0
      else u == 0.0
  {
    if y != 0.0 {
      Ratio(y, f);
      if y * f < y * y {
        HingeCapped(y, etaT, (y * y - y * f) / (y * y), y - f);
      }
    }
  }

  lemma HingeCapped(y: real, etaT: real, r: real, gap: real)
    requires etaT >= 0.0 && y != 0.0 && y * r == gap && (y > 0.0 ==> gap > 0.0) && (y < 0.0 ==> gap < 0.0)
    ensures y > 0.0 ==> 0.0 <= y * Min(r, etaT) <= gap
    ensures y < 0.0 ==> gap <= y * Min(r, etaT) <= 0.0
  {
    var m := Min(r, etaT);
    assert r >= 0.0;
    assert 0.0 <= m <= r;
  }

  lemma HingeDelta(lo: real, hi: real, y: real, etaT: real, p: real, n: real, gain: real) returns (d: real)
    requires etaT >= 0.0 && 0.0 <= gain <= n && n > 0.0
    ensures After(Hinge, lo, hi, y, etaT, p, n, gain) == p + d
    ensures var f := Finalize(lo, hi, p);
      if y > 0.0 && f < y then 0.0 <= d <= y - f
      else if y < 0.0 && f > y then y - f <= d <= 0.0
      else d == 0.0
  {
    var f := Finalize(lo, hi, p);
    hide HingeRaw, GetUpdate, Finalize;
    var u := HingeRaw(y, etaT, f);
    d := u / n * gain;
    HingeNormalized(y, etaT, f, n);
    HingeStep(y, etaT, f);
    Scaled(u, n, gain);
  }

  /** Hinge loss needs only the clamp bound on the label's own side. */
  predicate HingeSafe(lo: real, hi: real, y: real) {
    (y > 0.0 ==> y <= hi) && (y < 0.0 ==> lo <= y)
  }

  lemma TowardsBy(lo: real, hi: real, y: real, p: real, d: real)
    requires HingeSafe(lo, hi, y)
    requires var f := Finalize(lo, hi, p);
      if y > 0.0 && f < y then 0.0 <= d <= y - f
      else if y < 0.0 && f > y then y - f <= d <= 0.0
      else d == 0.0
    ensures TowardsMargin(y, p, p + d)
  {
  }

  lemma HingeTowards(lo: real, hi: real, y: real, etaT: real, p: real, n: real, gain: real)
    requires etaT >= 0.0 && 0.0 <= gain <= n && n > 0.0 && HingeSafe(lo, hi, y)
    ensures TowardsMargin(y, p, After(Hinge, lo, hi, y, etaT, p, n, gain))
  {
    var d := HingeDelta(lo, hi, y, etaT, p, n, gain);
    TowardsBy(lo, hi, y, p, d);
  }

  // ------------------------------------------------------------ exactly when

  /** The label's place relative to the clamp `[min_label, max_label]` that lets a normalized step stop in time. */
  predicate Safe(loss: Loss, lo: real, hi: real, y: real) {
    match loss
    case Quantile(_) => lo <= y <= hi
    case Hinge => HingeSafe(lo, hi, y)
  }

  /** With such a label and clamp the update is zero at every prediction. */
  predicate Inert(loss: Loss, lo: real, hi: real, y: real) {
    match loss
    case Quantile(_) => lo == y == hi
    case Hinge => y == 0.0 || (y > 0.0 && y <= lo && y <= hi) || (y < 0.0 && lo <= y && hi <= y)
  }

  /** The condition on label, clamp, normalizer and features that rules overshooting out. */
  predicate Covered(loss: Loss, lo: real, hi: real, y: real, n: real, gain: real) {
    gain == 0.0 || Inert(loss, lo, hi, y) || (Safe(loss, lo, hi, y) && gain <= n)
  }

  lemma InertStays(loss: Loss, lo: real, hi: real, y: real, etaT: real, p: real, n: real, gain: real)
    requires (loss.Quantile? ==> 0.0 < loss.tau < 1.0) && etaT >= 0.0 && n > 0.0
    requires gain == 0.0 || Inert(loss, lo, hi, y)
    ensures After(loss, lo, hi, y, etaT, p, n, gain) == p
  {
    if gain != 0.0 {
      var f := Finalize(lo, hi, p);
      if loss.Hinge? {
        hide GetUpdate, HingeRaw;
        HingeNormalized(y, etaT, f, n);
        HingeStep(y, etaT, f);
      }
    }
  }

  lemma NeverOvershoots(loss: Loss, lo: real, hi: real, y: real, etaT: real, p: real, n: real, gain: real)
    requires (loss.Quantile? ==> 0.0 < loss.tau < 1.0) && Covered(loss, lo, hi, y, n, gain)
    requires etaT >= 0.0 && gain >= 0.0 && n > 0.0
    ensures NoOvershoot(loss, y, p, After(loss, lo, hi, y, etaT, p, n, gain))
  {
    hide After;
    if gain == 0.0 || Inert(loss, lo, hi, y) {
      InertStays(loss, lo, hi, y, etaT, p, n, gain);
    } else if loss.Quantile? {
      QuantileBetween(loss.tau, lo, hi, y, etaT, p, n, gain);
    } else {
      HingeTowards(lo, hi, y, etaT, p, n, gain);
    }
  }

  /** A rate at which the quantile step is the whole clamped error. */
  lemma QuantileFullStep(tau: real, y: real, f: real) returns (etaT: real)
    requires 0.0 < tau < 1.0
    ensures etaT >= 0.0 && QuantileRaw(tau, y, etaT, f) == y - f
  {
    var e := y - f;
    etaT := if e > 0.0 then e / tau else -e / (1.0 - tau);
    if e > 0.0 { QuotientSign(e, tau); } else { QuotientSign(-e, 1.0 - tau); }
  }

  /** An update that passes the label: from the label itself when it lies outside the clamp, otherwise from the
      far end of the clamp. */
  lemma QuantileOvershoots(tau: real, lo: real, hi: real, y: real, n: real, gain: real) returns (etaT: real, p: real)
    requires 0.0 < tau < 1.0 && n > 0.0 && gain >= 0.0 && !Covered(Quantile(tau), lo, hi, y, n, gain)
    ensures etaT >= 0.0 && !Between(y, p, After(Quantile(tau), lo, hi, y, etaT, p, n, gain))
  {
    p := if !(lo <= y <= hi) then y else if y > lo then lo else hi;
    var f := Finalize(lo, hi, p);
    assert lo <= y <= hi ==> f == p != y && gain > n;
    assert !(lo <= y <= hi) ==> p == y != f;
    assert gain > 0.0;
    hide *;
    etaT := QuantileFullStep(tau, y, f);
    var d := QuantileMoves(tau, lo, hi, y, etaT, p, n, gain, y - f);
    MovesAre(y - f, n, gain, d);
    PassesBetween(y, p, f, d);
  }

  /** How far an un-normalized step of `a` moves the prediction. */
  ghost predicate Moves(a: real, n: real, gain: real, d: real) {
    && (gain > 0.0 && a > 0.0 ==> d > 0.0) && (gain > 0.0 && a < 0.0 ==> d < 0.0)
    && (gain > n && a > 0.0 ==> d > a) && (gain > n && a < 0.0 ==> d < a)
  }

  lemma MovesAre(a: real, n: real, gain: real, d: real)
    requires Moves(a, n, gain, d)
    ensures (gain > 0.0 && a > 0.0 ==> d > 0.0) && (gain > 0.0 && a < 0.0 ==> d < 0.0)
    ensures (gain > n && a > 0.0 ==> d > a) && (gain > n && a < 0.0 ==> d < a)
  {
  }

  lemma QuantileMoves(tau: real, lo: real, hi: real, y: real, etaT: real, p: real, n: real, gain: real, a: real)
    returns (d: real)
    requires 0.0 < tau < 1.0 && n > 0.0 && gain >= 0.0 && a == QuantileRaw(tau, y, etaT, Finalize(lo, hi, p))
    ensures After(Quantile(tau), lo, hi, y, etaT, p, n, gain) == p + d && Moves(a, n, gain, d)
  {
    hide QuantileRaw, GetUpdate, Finalize;
    d := a / n * gain;
    QuantileNormalized(tau, y, etaT, Finalize(lo, hi, p), n);
    Scaled(a, n, gain);
  }

  lemma HingeMoves(lo: real, hi: real, y: real, etaT: real, p: real, n: real, gain: real, a: real) returns (d: real)
    requires n > 0.0 && gain >= 0.0 && a == HingeRaw(y, etaT, Finalize(lo, hi, p))
    ensures After(Hinge, lo, hi, y, etaT, p, n, gain) == p + d && Moves(a, n, gain, d)
  {
    hide HingeRaw, GetUpdate, Finalize;
    d := a / n * gain;
    HingeNormalized(y, etaT, Finalize(lo, hi, p), n);
    Scaled(a, n, gain);
  }

  lemma PassesBetween(y: real, p: real, f: real, d: real)
    requires f != y && (p == y || f == p)
    requires (y - f > 0.0 ==> d > 0.0) && (y - f < 0.0 ==> d < 0.0)
    requires p != y ==> (y - f > 0.0 ==> d > y - f) && (y - f < 0.0 ==> d < y - f)
    ensures !Between(y, p, p + d)
  {
  }

  /** A rate at which the hinge step is the whole clamped error. */
  lemma HingeFullStep(y: real, f: real) returns (etaT: real)
    requires (y > 0.0 && f < y) || (y < 0.0 && f > y)
    ensures etaT >= 0.0 && HingeRaw(y, etaT, f) == y - f
  {
    Ratio(y, f);
    etaT := (y * y - y * f) / (y * y);
    RatioSign(y, f, etaT);
  }

  lemma RatioSign(y: real, f: real, r: real)
    requires y * r == y - f && ((y > 0.0 && f < y) || (y < 0.0 && f > y))
    ensures r > 0.0
  {
    if r <= 0.0 {
      SameSign(r, if y > 0.0 then y else -y);
    }
  }

  lemma HingeOvershoots(lo: real, hi: real, y: real, n: real, gain: real) returns (etaT: real, p: real)
    requires n > 0.0 && gain >= 0.0 && !Covered(Hinge, lo, hi, y, n, gain)
    ensures etaT >= 0.0 && !TowardsMargin(y, p, After(Hinge, lo, hi, y, etaT, p, n, gain))
  {
    p := if !HingeSafe(lo, hi, y) then (if y < 0.0 && hi < y then hi else y) else if y > 0.0 then lo else hi;
    var f := Finalize(lo, hi, p);
    assert HingeSafe(lo, hi, y) ==> gain > n && f == p;
    assert !HingeSafe(lo, hi, y) ==> p == y || (y < 0.0 && p < y);
    assert gain > 0.0 && ((y > 0.0 && f < y) || (y < 0.0 && f > y));
    hide *;
    etaT := HingeFullStep(y, f);
    var d := HingeMoves(lo, hi, y, etaT, p, n, gain, y - f);
    MovesAre(y - f, n, gain, d);
    PassesMargin(y, p, f, d, HingeSafe(lo, hi, y));
  }

  lemma PassesMargin(y: real, p: real, f: real, d: real, safe: bool)
    requires (y > 0.0 && f < y) || (y < 0.0 && f > y)
    requires if safe then f == p else p == y || (y < 0.0 && p < y)
    requires (y - f > 0.0 ==> d > 0.0) && (y - f < 0.0 ==> d < 0.0)
    requires safe ==> (y - f > 0.0 ==> d > y - f) && (y - f < 0.0 ==> d < y - f)
    ensures !TowardsMargin(y, p, p + d)
  {
  }

  /** No learning rate and no prediction makes the update pass the label, if and only if the label is on the right
      side of the clamp and the normalizer is at least the gain, or no update moves anything. */
  lemma NeverOvershootsIff(loss: Loss, lo: real, hi: real, y: real, n: real, gain: real)
    requires (loss.Quantile? ==> 0.0 < loss.tau < 1.0) && n > 0.0 && gain >= 0.0
    ensures Covered(loss, lo, hi, y, n, gain) <==>
      (forall etaT, p :: etaT >= 0.0 ==> NoOvershoot(loss, y, p, After(loss, lo, hi, y, etaT, p, n, gain)))
  {
    hide After, Covered;
    if Covered(loss, lo, hi, y, n, gain) {
      forall etaT, p | etaT >= 0.0 ensures NoOvershoot(loss, y, p, After(loss, lo, hi, y, etaT, p, n, gain)) {
        NeverOvershoots(loss, lo, hi, y, etaT, p, n, gain);
      }
    } else {
      var etaT, p := SomeOvershoot(loss, lo, hi, y, n, gain);
    }
  }

  lemma SomeOvershoot(loss: Loss, lo: real, hi: real, y: real, n: real, gain: real) returns (etaT: real, p: real)
    requires (loss.Quantile? ==> 0.0 < loss.tau < 1.0) && n > 0.0 && gain >= 0.0
    requires !Covered(loss, lo, hi, y, n, gain)
    ensures etaT >= 0.0 && !NoOvershoot(loss, y, p, After(loss, lo, hi, y, etaT, p, n, gain))
  {
    hide After, Covered;
    if loss.Quantile? {
      etaT, p := QuantileOvershoots(loss.tau, lo, hi, y, n, gain);
    } else {
      etaT, p := HingeOvershoots(lo, hi, y, n, gain);
    }
  }
}
