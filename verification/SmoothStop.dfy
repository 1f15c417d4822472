/** smooth_stop.cpp: the least-squares prediction of the time to stop, and the strong
    acceleration. Times are relative to the current clock, as in the source. */
module SmoothStop {
  import opened Options
  import opened RealArithmetic

  datatype Sample = Sample(t: real, v: real)

  // ----- moments of a history -----

  function SumT(h: seq<Sample>): real {
    if h == [] then 0.0 else SumT(h[..|h| - 1]) + h[|h| - 1].t
  }

  function SumV(h: seq<Sample>): real {
    if h == [] then 0.0 else SumV(h[..|h| - 1]) + h[|h| - 1].v
  }

  function SumTV(h: seq<Sample>): real {
    if h == [] then 0.0 else SumTV(h[..|h| - 1]) + Mul(h[|h| - 1].t, h[|h| - 1].v)
  }

  function SumTT(h: seq<Sample>): real {
    if h == [] then 0.0 else SumTT(h[..|h| - 1]) + Square(h[|h| - 1].t)
  }

  function SumVV(h: seq<Sample>): real {
    if h == [] then 0.0 else SumVV(h[..|h| - 1]) + Square(h[|h| - 1].v)
  }

  /** Sum of squared velocity errors of the line v = a t + b. */
  function SquaredError(h: seq<Sample>, a: real, b: real): real {
    if h == [] then 0.0
    else SquaredError(h[..|h| - 1], a, b) + Square(Mul(a, h[|h| - 1].t) + b - h[|h| - 1].v)
  }

  /** Sum of squared distances of the sample times from m. */
  function Spread(h: seq<Sample>, m: real): real {
    if h == [] then 0.0 else Spread(h[..|h| - 1], m) + Square(h[|h| - 1].t - m)
  }

  lemma ErrorTerm(a: real, b: real, t: real, v: real)
    ensures Square(Mul(a, t) + b - v)
         == Mul(Square(a), Square(t)) + Square(b) + Square(v) + 2.0 * Mul(Mul(a, b), t) - 2.0 * Mul(a, Mul(t,
               v)) - 2.0 * Mul(b, v)
  {
    var x := a * t;
    assert Square(x + b - v) == x * x + b * b + v * v + 2.0 * (x * b) - 2.0 * (x * v) - 2.0 * (b * v);
    assert x * x == (a * a) * (t * t);
    assert x * b == (a * b) * t;
    assert x * v == a * (t * v);
  }

  lemma MulAdd(a: real, x: real, y: real)
    ensures Mul(a, x + y) == Mul(a, x) + Mul(a, y)
  {
  }

  /** The error of a line in terms of the moments. */
  function ErrorOfMoments(n: real, st: real, sv: real, stv: real, stt: real, svv: real, a: real, b: real): real {
    Mul(Square(a), stt) + Mul(n, Square(b)) + svv + 2.0 * Mul(Mul(a, b), st) - 2.0 * Mul(a, stv) - 2.0 * Mul(b, sv)
  }

  lemma {:induction false} ErrorFromMoments(h: seq<Sample>, a: real, b: real)
    ensures SquaredError(h, a, b)
         == ErrorOfMoments(|h| as real, SumT(h), SumV(h), SumTV(h), SumTT(h), SumVV(h), a, b)
  {
    if h != [] {
      var p, s := h[..|h| - 1], h[|h| - 1];
      ErrorFromMoments(p, a, b);
      ErrorTerm(a, b, s.t, s.v);
      MulAdd(Square(a), SumTT(p), Square(s.t));
      MulAdd(Mul(a, b), SumT(p), s.t);
      MulAdd(a, SumTV(p), Mul(s.t, s.v));
      MulAdd(b, SumV(p), s.v);
      assert Mul(|h| as real, Square(b)) == Mul(|p| as real, Square(b)) + Square(b);
    }
  }

  lemma {:induction false} SpreadFromMoments(h: seq<Sample>, m: real)
    ensures Spread(h, m) == SumTT(h) - 2.0 * Mul(m, SumT(h)) + Mul(|h| as real, Square(m))
  {
    if h != [] {
      var p, t := h[..|h| - 1], h[|h| - 1].t;
      SpreadFromMoments(p, m);
      assert Square(t - m) == Square(t) - 2.0 * Mul(m, t) + Square(m);
      MulAdd(m, SumT(p), t);
      assert Mul(|h| as real, Square(m)) == Mul(|p| as real, Square(m)) + Square(m);
    }
  }

  /** The spread is never negative, and zero exactly when every sample has time m. */
  lemma {:induction false} SpreadSign(h: seq<Sample>, m: real)
    ensures Spread(h, m) >= 0.0
    ensures Spread(h, m) == 0.0 <==> forall i | 0 <= i < |h| :: h[i].t == m
  {
    if h != [] {
      var p, t := h[..|h| - 1], h[|h| - 1].t;
      SpreadSign(p, m);
      SquareNonNegative(t - m);
      if t == m {
        assert Square(t - m) == 0.0;
      }
      assert forall i | 0 <= i < |p| :: h[i] == p[i];
    }
  }

  // ----- the fit -----

  function MeanT(h: seq<Sample>): real
    requires h != []
  {
    Quotient(SumT(h), |h| as real)
  }

  function MeanV(h: seq<Sample>): real
    requires h != []
  {
    Quotient(SumV(h), |h| as real)
  }

  /** The denominator of the slope as the code forms it. */
  function Denominator(h: seq<Sample>): real
    requires h != []
  {
    Mul(|h| as real, Square(MeanT(h))) - SumTT(h)
  }

  lemma MeanTimes(s: real, n: real, m: real)
    requires n > 0.0 && m == Quotient(s, n)
    ensures s == Mul(n, m) && Mul(m, s) == Mul(n, Square(m))
  {
    QuotientTimes(s, n);
    assert Mul(m, Mul(n, m)) == Mul(n, Square(m));
  }

  /** The denominator is never positive, and zero exactly when all sample times are equal. */
  lemma DenominatorSign(h: seq<Sample>)
    requires h != []
    ensures Denominator(h) == -Spread(h, MeanT(h)) <= 0.0
    ensures Denominator(h) == 0.0 <==> forall i, j | 0 <= i < |h| && 0 <= j < |h| :: h[i].t == h[j].t
  {
    var m := MeanT(h);
    SpreadFromMoments(h, m);
    MeanTimes(SumT(h), |h| as real, m);
    SpreadSign(h, m);
    if forall i, j | 0 <= i < |h| && 0 <= j < |h| :: h[i].t == h[j].t {
      EqualTimesMean(h, h[0].t);
    }
  }

  lemma {:induction false} ConstantSum(h: seq<Sample>, t: real)
    requires forall i | 0 <= i < |h| :: h[i].t == t
    ensures SumT(h) == Mul(|h| as real, t)
  {
    if h != [] {
      ConstantSum(h[..|h| - 1], t);
      assert Mul(|h| as real, t) == Mul((|h| - 1) as real, t) + t;
    }
  }

  lemma EqualTimesMean(h: seq<Sample>, t: real)
    requires h != [] && forall i | 0 <= i < |h| :: h[i].t == t
    ensures MeanT(h) == t
  {
    ConstantSum(h, t);
    assert Mul(|h| as real, t) == Mul(t, |h| as real);
    QuotientOfProduct(t, |h| as real);
  }

  function Slope(h: seq<Sample>): real
    requires h != [] && Denominator(h) != 0.0
  {
    Quotient(Mul(|h| as real, Mul(MeanT(h), MeanV(h))) - SumTV(h), Denominator(h))
  }

  function Intercept(h: seq<Sample>): real
    requires h != [] && Denominator(h) != 0.0
  {
    MeanV(h) - Mul(Slope(h), MeanT(h))
  }

  /** Moving away from a line that meets the normal equations adds n (db + da m)^2 + da^2 spread. */
  lemma QuadraticGap(n: real, m: real, st: real, sv: real, stv: real, stt: real, svv: real,
                     a: real, b: real, da: real, db: real)
    requires st == Mul(n, m)
    requires Mul(a, stt) + Mul(b, st) == stv && Mul(a, st) + Mul(n, b) == sv
    ensures ErrorOfMoments(n, st, sv, stv, stt, svv, a + da, b + db) - ErrorOfMoments(n, st, sv, stv, stt, svv, a, b)
         == Mul(n, Square(db + Mul(da, m))) + Mul(Square(da), stt - Mul(n, Square(m)))
  {
    var gap := Mul(Square(da), stt) + Mul(n, Square(db)) + 2.0 * Mul(Mul(da, db), st);
    assert ErrorOfMoments(n, st, sv, stv, stt, svv, a + da, b + db) - ErrorOfMoments(n, st, sv, stv, stt, svv, a,
        b) == gap by {
      GapExpansion(n, st, sv, stv, stt, a, b, da, db);
    }
    GapSquare(n, m, stt, da, db);
  }

  lemma GapExpansion(n: real, st: real, sv: real, stv: real, stt: real, a: real, b: real, da: real, db: real)
    requires Mul(a, stt) + Mul(b, st) == stv && Mul(a, st) + Mul(n, b) == sv
    ensures Mul(Square(a + da), stt) + Mul(n, Square(b + db)) + 2.0 * Mul(Mul(a + da, b + db), st)
            - 2.0 * Mul(a + da, stv) - 2.0 * Mul(b + db, sv)
         == Mul(Square(a), stt) + Mul(n, Square(b)) + 2.0 * Mul(Mul(a, b), st) - 2.0 * Mul(a, stv) - 2.0 * Mul(b, sv)
            + Mul(Square(da), stt) + Mul(n, Square(db)) + 2.0 * Mul(Mul(da, db), st)
  {
    assert Mul(Square(a + da), stt) == Mul(Square(a), stt) + 2.0 * (da * (a * stt)) + Mul(Square(da), stt);
    assert Mul(n, Square(b + db)) == Mul(n, Square(b)) + 2.0 * (db * (n * b)) + Mul(n, Square(db));
    assert Mul(Mul(a + da, b + db), st) == Mul(Mul(a, b), st) + db * (a * st) + da * (b * st) + Mul(Mul(da, db), st);
    assert da * stv == da * (a * stt) + da * (b * st);
    assert db * sv == db * (a * st) + db * (n * b);
  }

  lemma GapSquare(n: real, m: real, stt: real, da: real, db: real)
    ensures Mul(Square(da), stt) + Mul(n, Square(db)) + 2.0 * Mul(Mul(da, db), Mul(n, m))
         == Mul(n, Square(db + Mul(da, m))) + Mul(Square(da), stt - Mul(n, Square(m)))
  {
    var x := da * m;
    assert Square(db + x) == db * db + 2.0 * (db * x) + x * x;
    assert Mul(n, Square(db + x)) == n * (db * db) + 2.0 * (n * (db * x)) + n * (x * x);
    assert n * (db * x) == (da * db) * (n * m);
    assert x * x == (da * da) * (m * m);
    assert n * ((da * da) * (m * m)) == (da * da) * (n * (m * m));
  }

  /** The slope and the intercept satisfy the normal equations. */
  lemma NormalEquations(h: seq<Sample>)
    requires h != [] && Denominator(h) != 0.0
    ensures var a, b := Slope(h), Intercept(h);
            && Mul(a, SumTT(h)) + Mul(b, SumT(h)) == SumTV(h)
            && Mul(a, SumT(h)) + Mul(|h| as real, b) == SumV(h)
  {
    var n, mt, mv, a, b, d := |h| as real, MeanT(h), MeanV(h), Slope(h), Intercept(h), Denominator(h);
    MeanTimes(SumT(h), n, mt);
    MeanTimes(SumV(h), n, mv);
    QuotientTimes(Mul(n, Mul(mt, mv)) - SumTV(h), d);
    SolveNormal(n, mt, mv, SumTT(h), SumTV(h), a);
  }

  lemma SolveNormal(n: real, mt: real, mv: real, stt: real, stv: real, a: real)
    requires Mul(a, Mul(n, Square(mt)) - stt) == Mul(n, Mul(mt, mv)) - stv
    ensures Mul(a, stt) + Mul(mv - Mul(a, mt), Mul(n, mt)) == stv
    ensures Mul(a, Mul(n, mt)) + Mul(n, mv - Mul(a, mt)) == Mul(n, mv)
  {
    var x := a * mt;
    assert Mul(a, Mul(n, Square(mt)) - stt) == a * (n * (mt * mt)) - a * stt;
    assert (mv - x) * (n * mt) == mv * (n * mt) - x * (n * mt);
    assert x * (n * mt) == a * (n * (mt * mt));
    assert mv * (n * mt) == n * (mt * mv);
    assert n * (mv - x) == n * mv - n * x;
    assert n * x == a * (n * mt);
  }

  /** Over all lines the fitted one has the least sum of squared velocity errors. */
  lemma FitIsLeastSquares(h: seq<Sample>, a: real, b: real)
    requires h != [] && Denominator(h) != 0.0
    ensures SquaredError(h, Slope(h), Intercept(h)) <= SquaredError(h, a, b)
    ensures SquaredError(h, a, b) == SquaredError(h, Slope(h), Intercept(h)) ==> a == Slope(h) && b == Intercept(h)
  {
    var n, m, sa, sb := |h| as real, MeanT(h), Slope(h), Intercept(h);
    var da, db := a - sa, b - sb;
    NormalEquations(h);
    MeanTimes(SumT(h), n, m);
    QuadraticGap(n, m, SumT(h), SumV(h), SumTV(h), SumTT(h), SumVV(h), sa, sb, da, db);
    ErrorFromMoments(h, sa, sb);
    ErrorFromMoments(h, a, b);
    DenominatorSign(h);
    GapPositive(n, db + Mul(da, m), da, -Denominator(h));
    if da == 0.0 {
      assert Mul(da, m) == 0.0;
    }
  }

  lemma GapPositive(n: real, x: real, da: real, spread: real)
    requires n > 0.0 && spread > 0.0
    ensures Mul(n, Square(x)) + Mul(Square(da), spread) >= 0.0
    ensures Mul(n, Square(x)) + Mul(Square(da), spread) == 0.0 ==> x == 0.0 && da == 0.0
  {
    SquareNonNegative(x);
    SquareNonNegative(da);
    if x != 0.0 {
      ProductPositive(n, Square(x));
    }
    if da != 0.0 {
      ProductPositive(Square(da), spread);
    }
    assert x == 0.0 ==> Mul(n, Square(x)) == 0.0;
    assert da == 0.0 ==> Mul(Square(da), spread) == 0.0;
  }

  /** Exactly linear history is recovered exactly. */
  lemma LineIsRecovered(h: seq<Sample>, alpha: real, beta: real)
    requires h != [] && Denominator(h) != 0.0
    requires forall i | 0 <= i < |h| :: h[i].v == Mul(alpha, h[i].t) + beta
    ensures Slope(h) == alpha && Intercept(h) == beta
  {
    LineHasNoError(h, alpha, beta);
    FitIsLeastSquares(h, alpha, beta);
    ErrorNonNegative(h, Slope(h), Intercept(h));
  }

  lemma {:induction false} LineHasNoError(h: seq<Sample>, alpha: real, beta: real)
    requires forall i | 0 <= i < |h| :: h[i].v == Mul(alpha, h[i].t) + beta
    ensures SquaredError(h, alpha, beta) == 0.0
  {
    if h != [] {
      LineHasNoError(h[..|h| - 1], alpha, beta);
      assert Square(0.0) == 0.0;
    }
  }

  lemma {:induction false} ErrorNonNegative(h: seq<Sample>, a: real, b: real)
    ensures SquaredError(h, a, b) >= 0.0
  {
    if h != [] {
      ErrorNonNegative(h[..|h| - 1], a, b);
      SquareNonNegative(Mul(a, h[|h| - 1].t) + b - h[|h| - 1].v);
    }
  }

  // ----- calcTimeToStop -----

  /** `std::numeric_limits<double>::epsilon()`. */
  const EPSILON := 1.0 / 4503599627370496.0

  /** The prediction: where the fitted line crosses zero, when it does so ahead. */
  function TimeToStop(h: seq<Sample>): Option<real> {
    if h == [] || Abs(Denominator(h)) < EPSILON then None
    else if Abs(Slope(h)) < EPSILON then None
    else if Quotient(-Intercept(h), Slope(h)) > 0.0 then Some(Quotient(-Intercept(h), Slope(h)))
    else None
  }

  function Relative(history: seq<Sample>, now: real): seq<Sample> {
    seq(|history|, i requires 0 <= i < |history| => Sample(history[i].t - now, history[i].v))
  }

  /** The code: one pass over the history, then the closed form. */
  method CalcTimeToStop(history: seq<Sample>, now: real) returns (time: Option<real>)
    ensures time == TimeToStop(Relative(history, now))
  {
    var h := Relative(history, now);
    if |history| == 0 {
      return None;
    }
    var n := |history| as real;
    var meanT, meanV, sumTV, sumTT := 0.0, 0.0, 0.0, 0.0;
    for i := 0 to |history|
      invariant meanT == Quotient(SumT(h[..i]), n) && meanV == Quotient(SumV(h[..i]), n)
      invariant sumTV == SumTV(h[..i]) && sumTT == SumTT(h[..i])
    {
      var t := history[i].t - now;
      var v := history[i].v;
      meanT := meanT + Quotient(t, n);
      meanV := meanV + Quotient(v, n);
      sumTV := sumTV + Mul(t, v);
      sumTT := sumTT + Square(t);
      assert h[..i + 1][..i] == h[..i] && h[..i + 1][i] == Sample(t, v);
      QuotientSum(SumT(h[..i]), t, n);
      QuotientSum(SumV(h[..i]), v, n);
    }
    assert h[..|history|] == h;
    var d := Mul(n, Square(meanT)) - sumTT;
    if Abs(d) < EPSILON {
      return None;
    }
    var a := Quotient(Mul(n, Mul(meanT, meanV)) - sumTV, d);
    var b := meanV - Mul(a, meanT);
    if Abs(a) < EPSILON {
      return None;
    }
    var timeToStop := Quotient(-b, a);
    if timeToStop > 0.0 {
      return Some(timeToStop);
    }
    return None;
  }

  lemma QuotientSum(x: real, y: real, n: real)
    requires n > 0.0
    ensures Quotient(x + y, n) == Quotient(x, n) + Quotient(y, n)
  {
  }

  /** For exactly linear history the prediction is the true zero crossing, when that is ahead. */
  lemma PredictionIsZeroCrossing(h: seq<Sample>, alpha: real, beta: real, time: real)
    requires h != [] && Abs(Denominator(h)) >= EPSILON && Abs(alpha) >= EPSILON
    requires forall i | 0 <= i < |h| :: h[i].v == Mul(alpha, h[i].t) + beta
    requires Mul(alpha, time) + beta == 0.0
    ensures TimeToStop(h) == if time > 0.0 then Some(time) else None
  {
    LineIsRecovered(h, alpha, beta);
    assert Mul(alpha, time) == Mul(time, alpha);
    QuotientOfProduct(time, alpha);
  }

  // ----- init and calculate -----

  datatype Params = Params(
    maxStrongAcc: real, minStrongAcc: real, weakAcc: real, weakStopAcc: real, strongStopAcc: real,
    minFastVel: real, minRunningVel: real, minRunningAcc: real,
    weakStopTime: real, weakStopDist: real, strongStopDist: real)

  /** The constant deceleration that stops within the distance, clamped. */
  function StrongAcc(p: Params, velocity: real, distance: real): real {
    if distance < EPSILON then p.minStrongAcc
    else Max(Min(Quotient(-Square(velocity), 2.0 * distance), p.maxStrongAcc), p.minStrongAcc)
  }

  /** With ordered limits the strong acceleration stays inside them, and when no limit acts it brings
      the velocity to zero exactly at the predicted distance: v^2 + 2 a d = 0. */
  lemma StrongAccStopsInTime(p: Params, velocity: real, distance: real)
    requires p.minStrongAcc <= p.maxStrongAcc
    ensures p.minStrongAcc <= StrongAcc(p, velocity, distance) <= p.maxStrongAcc
    ensures distance >= EPSILON && p.minStrongAcc < StrongAcc(p, velocity, distance) < p.maxStrongAcc ==>
              Square(velocity) + Mul(2.0 * StrongAcc(p, velocity, distance), distance) == 0.0
  {
    if distance >= EPSILON {
      QuotientTimes(-Square(velocity), 2.0 * distance);
      var a := Quotient(-Square(velocity), 2.0 * distance);
      assert Mul(2.0 * a, distance) == Mul(a, 2.0 * distance);
    }
  }

  class SmoothStopper {
    const params: Params
    var strongAcc: real
    var weakAccTime: real

    constructor (params: Params)
      ensures this.params == params
    {
      this.params := params;
      strongAcc, weakAccTime := 0.0, 0.0;
    }

    method Init(velocity: real, distance: real, now: real)
      modifies this
      ensures strongAcc == StrongAcc(params, velocity, distance) && weakAccTime == now
    {
      weakAccTime := now;
      if distance < EPSILON {
        strongAcc := params.minStrongAcc;
        return;
      }
      strongAcc := Quotient(-Square(velocity), 2.0 * distance);
      strongAcc := Max(Min(strongAcc, params.maxStrongAcc), params.minStrongAcc);
    }

    ghost predicate Moving(velocity: real, acceleration: real) {
      Abs(velocity) > params.minRunningVel || Abs(acceleration) > params.minRunningAcc
    }

    ghost predicate WillNotStopInTime(h: seq<Sample>, velocity: real, delay: real) {
      if TimeToStop(h).Some? then TimeToStop(h).value > params.weakStopTime + delay
      else Abs(velocity) > params.minFastVel
    }

    ghost predicate PastStopLine(distance: real) {
      distance < params.strongStopDist || distance < params.weakStopDist
    }

    /** Past the stop line the two stop accelerations apply; before it a moving vehicle brakes strongly
        only when it would not stop in time, and the weak brake is held half a second after the last
        weak cycle. The clock is read for the prediction and again for the weak brake. */
    method Calculate(distance: real, velocity: real, acceleration: real, history: seq<Sample>, delay: real, now: real,
                     later: real)
      returns (acc: real)
      modifies this`weakAccTime
      ensures distance < params.strongStopDist ==> acc == params.strongStopAcc && weakAccTime == old(weakAccTime)
      ensures params.strongStopDist <= distance < params.weakStopDist ==>
                acc == params.weakStopAcc && weakAccTime == old(weakAccTime)
      ensures !PastStopLine(distance) && Moving(velocity, acceleration) ==>
                if WillNotStopInTime(Relative(history, now), velocity, delay)
                then acc == strongAcc && weakAccTime == old(weakAccTime)
                else acc == params.weakAcc && weakAccTime == later
      ensures !PastStopLine(distance) && !Moving(velocity, acceleration) ==>
                weakAccTime == old(weakAccTime)
                && acc == if later - weakAccTime < 0.5 then params.weakAcc else params.strongStopAcc
    {
      var timeToStop := CalcTimeToStop(history, now);
      var isFast := Abs(velocity) > params.minFastVel;
      var isRunning := Abs(velocity) > params.minRunningVel || Abs(acceleration) > params.minRunningAcc;
      if distance < params.strongStopDist {
        return params.strongStopAcc;
      } else if distance < params.weakStopDist {
        return params.weakStopAcc;
      }
      if isRunning {
        if timeToStop.Some? && timeToStop.value > params.weakStopTime + delay {
          return strongAcc;
        } else if timeToStop.None? && isFast {
          return strongAcc;
        }
        weakAccTime := later;
        return params.weakAcc;
      }
      if later - weakAccTime < 0.5 {
        return params.weakAcc;
      }
      return params.strongStopAcc;
    }
  }
}
