/** mpc_utils.cpp: the resampling grid, recomputed times, velocity smoothing and the
    unwrapping of yaw angles. Edge lengths are inputs. */
module Resampling {
  import opened RealArithmetic

  // ----- angles -----

  /** Half a turn, as a double. */
  const PI := 3.141592653589793

  function Times(k: int, x: real): real {
    k as real * x
  }

  /** `fmod` by a full turn: the quotient is truncated towards zero. */
  function Fmod(x: real): real {
    x - Times(Turns(x), 2.0 * PI)
  }

  function Turns(x: real): int {
    if x >= 0.0 then Quotient(x, 2.0 * PI).Floor else -Quotient(-x, 2.0 * PI).Floor
  }

  function NormalizeRadian(x: real): real {
    var value := Fmod(x);
    if -PI <= value < PI then value
    else if value >= 0.0 then value - 2.0 * PI
    else value + 2.0 * PI
  }

  predicate SameAngle(x: real, y: real, k: int) {
    x == y + Times(k, 2.0 * PI)
  }

  lemma FloorBounds(x: real, turn: real)
    requires x >= 0.0 && turn > 0.0
    ensures var k := Quotient(x, turn).Floor; 0.0 <= x - Times(k, turn) < turn
  {
    var q := Quotient(x, turn);
    QuotientTimes(x, turn);
    assert (q - q.Floor as real) * turn == Mul(q, turn) - Times(q.Floor, turn);
    ProductNonNegative(q - q.Floor as real, turn);
    ProductPositive(q.Floor as real + 1.0 - q, turn);
    assert Mul(q.Floor as real + 1.0 - q, turn) == Times(q.Floor, turn) + turn - Mul(q, turn);
  }

  /** The same angle, moved into [-pi, pi). */
  lemma NormalizedInRange(x: real) returns (k: int)
    ensures -PI <= NormalizeRadian(x) < PI && SameAngle(NormalizeRadian(x), x, k)
  {
    if x >= 0.0 {
      FloorBounds(x, 2.0 * PI);
    } else {
      FloorBounds(-x, 2.0 * PI);
    }
    var value := Fmod(x);
    k := if -PI <= value < PI then -Turns(x) else if value >= 0.0 then -Turns(x) - 1 else -Turns(x) + 1;
  }

  /** Every angle as before up to whole turns, and no step of half a turn or more. */
  ghost predicate Unwrapped(before: seq<real>, after: seq<real>) {
    && |after| == |before|
    && (|before| > 0 ==> after[0] == before[0])
    && (forall i | 0 <= i < |before| :: Congruent(after[i], before[i]))
    && (forall i, j | 0 <= i < |before| && j == i + 1 < |before| :: -PI <= after[j] - after[i] < PI)
  }

  ghost predicate Congruent(x: real, y: real) {
    exists k :: SameAngle(x, y, k)
  }

  lemma NormalizedStep(previous: real, angle: real, original: real)
    requires angle == original
    ensures Congruent(previous + NormalizeRadian(angle - previous), original)
    ensures -PI <= NormalizeRadian(angle - previous) < PI
  {
    var k := NormalizedInRange(angle - previous);
    assert SameAngle(previous + NormalizeRadian(angle - previous), original, k);
  }

  method ConvertEulerAngleToMonotonic(angles: array<real>)
    modifies angles
    ensures Unwrapped(old(angles[..]), angles[..])
  {
    ghost var before := angles[..];
    if angles.Length > 0 {
      assert SameAngle(angles[0], before[0], 0);
    }
    var i := 1;
    while i < angles.Length
      invariant 1 <= i && (angles.Length > 0 ==> i <= angles.Length && angles[0] == before[0])
      invariant forall j | i <= j < angles.Length :: angles[j] == before[j]
      invariant forall j | 0 <= j < i && j < angles.Length :: Congruent(angles[j], before[j])
      invariant forall j, l | 0 <= j && j + 1 == l < i && l < angles.Length :: -PI <= angles[l] - angles[j] < PI
    {
      var da := angles[i] - angles[i - 1];
      NormalizedStep(angles[i - 1], angles[i], before[i]);
      angles[i] := angles[i - 1] + NormalizeRadian(da);
      i := i + 1;
    }
    assert forall k | 0 <= k < |before| :: angles[..][k] == angles[k];
  }

  // ----- the resampling grid -----

  /** Where the backward pass starts: the ego position clamped into the path. */
  function GridOrigin(ego: real, total: real): real
    requires total >= 0.000001
  {
    Clamp(ego, 0.0, total - 0.000001)
  }

  /** Consecutive samples are exactly one interval apart. */
  ghost predicate Uniform(s: seq<real>, interval: real) {
    forall i, j | 0 <= i && j == i + 1 < |s| :: s[j] - s[i] == interval
  }

  predicate Reaches(steps: int, interval: real, distance: real) {
    distance < Mul(steps as real, interval)
  }

  lemma OneStepLess(steps: int, interval: real, distance: real)
    requires interval > 0.0 && Reaches(steps, interval, distance)
    ensures Reaches(steps - 1, interval, distance - interval)
    ensures distance >= 0.0 ==> steps > 0
  {
    assert Mul((steps - 1) as real, interval) == Mul(steps as real, interval) - interval;
    if steps <= 0 {
      ProductNonNegative((-steps) as real, interval);
      assert (-steps) as real * interval == -Mul(steps as real, interval);
    }
  }

  lemma EnoughSteps(interval: real, distance: real) returns (steps: int)
    requires interval > 0.0
    ensures Reaches(steps, interval, distance)
  {
    steps := Quotient(distance, interval).Floor + 1;
    QuotientTimes(distance, interval);
    ProductPositive(steps as real - Quotient(distance, interval), interval);
    assert Mul(steps as real - Quotient(distance, interval), interval)
        == Mul(steps as real, interval) - Mul(Quotient(distance, interval), interval);
  }

  /** Samples from `from` down to zero, nearest first. */
  method BackwardSamples(from: real, interval: real) returns (s: seq<real>)
    requires interval > 0.0 && from >= 0.0
    ensures s != [] && s[0] == from && 0.0 <= s[|s| - 1] < interval
    ensures forall i, j | 0 <= i && j == i + 1 < |s| :: s[j] == s[i] - interval
  {
    s := [];
    var next := from;
    ghost var steps := EnoughSteps(interval, from);
    while 0.0 <= next
      invariant s != [] ==> s[0] == from && s[|s| - 1] >= 0.0 && next == s[|s| - 1] - interval
      invariant s == [] ==> next == from
      invariant forall i, j | 0 <= i && j == i + 1 < |s| :: s[j] == s[i] - interval
      invariant Reaches(steps, interval, next)
      decreases steps
    {
      OneStepLess(steps, interval, next);
      s := s + [next];
      next := next - interval;
      steps := steps - 1;
    }
  }

  /** `std::reverse`. */
  method Reversed(s: seq<real>) returns (r: seq<real>)
    ensures |r| == |s| && forall i | 0 <= i < |s| :: r[i] == s[|s| - 1 - i]
  {
    r := [];
    for i := 0 to |s|
      invariant |r| == i && forall j | 0 <= j < i :: r[j] == s[|s| - 1 - j]
    {
      r := r + [s[|s| - 1 - i]];
    }
  }

  /** Appends samples from `from` while they are below the total length. */
  method ForwardSamples(prefix: seq<real>, from: real, interval: real, total: real) returns (s: seq<real>)
    requires interval > 0.0
    ensures |s| >= |prefix| && s[..|prefix|] == prefix
    ensures |s| > |prefix| <==> from < total
    ensures from < total ==> s[|prefix|] == from && s[|s| - 1] < total <= s[|s| - 1] + interval
    ensures forall i, j | |prefix| <= i && j == i + 1 < |s| :: s[j] == s[i] + interval
  {
    s := prefix;
    var next := from;
    ghost var steps := EnoughSteps(interval, total - from);
    while next < total
      invariant |s| >= |prefix| && s[..|prefix|] == prefix
      invariant |s| == |prefix| ==> next == from
      invariant |s| > |prefix| ==> from < total && s[|prefix|] == from
      invariant |s| > |prefix| ==> s[|s| - 1] < total && next == s[|s| - 1] + interval
      invariant forall i, j | |prefix| <= i && j == i + 1 < |s| :: s[j] == s[i] + interval
      invariant Reaches(steps, interval, total - next)
      decreases steps
    {
      OneStepLess(steps, interval, total - next);
      assert total - next - interval == total - (next + interval);
      s := s + [next];
      next := next + interval;
      steps := steps - 1;
    }
  }

  /** The grid starts in the first interval, contains the ego sample, never leaves [0, total), reaches
      its last interval when the interval is not below a micrometre, and is uniform exactly unless the
      ego is in the last micrometre with room for another sample. */
  method ResampleGrid(ego: real, interval: real, total: real) returns (s: seq<real>)
    requires interval > 0.0 && total >= 0.000001
    ensures s != [] && GridOrigin(ego, total) in s && 0.0 <= s[0] < interval && s[|s| - 1] < total
    ensures Uniform(s, interval) <==> !(ego > total - 0.000001 && ego + interval < total)
    ensures forall i, j | 0 <= i && j == i + 1 < |s| :: s[i] < s[j]
    ensures interval >= 0.000001 ==> Uniform(s, interval) && total <= s[|s| - 1] + interval
  {
    var origin := GridOrigin(ego, total);
    var backward := BackwardSamples(origin, interval);
    var head := Reversed(backward);
    var n := |head|;
    assert head[n - 1] == origin;
    assert forall i, j | 0 <= i && j == i + 1 < n :: head[j] - head[i] == interval by {
      forall i, j | 0 <= i && j == i + 1 < n
        ensures head[j] - head[i] == interval
      {
        assert backward[n - 1 - i] == backward[n - 1 - j] - interval;
      }
    }
    var from := Max(ego, 0.0) + interval;
    s := ForwardSamples(head, from, interval, total);
    assert forall i | 0 <= i < n :: s[i] == s[..n][i] == head[i];
    GridShape(s, n, from, interval, total, ego);
  }

  lemma GridShape(s: seq<real>, n: nat, from: real, interval: real, total: real, ego: real)
    requires interval > 0.0 && total >= 0.000001 && 0 < n <= |s| && from == Max(ego, 0.0) + interval
    requires s[n - 1] == GridOrigin(ego, total)
    requires forall i, j | 0 <= i && j == i + 1 < n :: s[j] - s[i] == interval
    requires |s| > n <==> from < total
    requires from < total ==> s[n] == from && s[|s| - 1] < total <= s[|s| - 1] + interval
    requires forall i, j | n <= i && j == i + 1 < |s| :: s[j] == s[i] + interval
    ensures Uniform(s, interval) <==> !(ego > total - 0.000001 && ego + interval < total)
    ensures forall i, j | 0 <= i && j == i + 1 < |s| :: s[i] < s[j]
    ensures interval >= 0.000001 ==> Uniform(s, interval) && total <= s[|s| - 1] + interval
    ensures s[|s| - 1] < total
  {
    forall i, j | 0 <= i && j == i + 1 < |s|
      ensures if j == n then s[j] - s[i] == from - GridOrigin(ego, total) else s[j] - s[i] == interval
    {
    }
    if |s| > n {
      assert Uniform(s, interval) ==> s[n] - s[n - 1] == interval;
    }
  }

  /** The ego half a micrometre before the end, the interval a tenth of one: not uniform. */
  method UnevenGrid() returns (s: seq<real>)
    ensures !Uniform(s, 0.0000001)
  {
    s := ResampleGrid(0.9999995, 0.0000001, 1.0);
  }

  // ----- recomputed times -----

  const MIN_DT := 0.0001

  /** Time over one edge: at least the minimum, and at least the distance at the clipped speed. */
  function EdgeTime(distance: real, v: real): real {
    Max(Quotient(distance, Max(Abs(v), 0.1)), MIN_DT)
  }

  method CalcMPCTrajectoryTime(distances: seq<real>, vx: seq<real>) returns (times: seq<real>)
    requires |vx| == |distances| + 1
    ensures |times| == |vx| && times[0] == 0.0
    ensures forall i, j | 0 <= i && j == i + 1 < |times| :: times[j] - times[i] == EdgeTime(distances[i], vx[i])
  {
    var t := 0.0;
    times := [t];
    for i := 0 to |vx| - 1
      invariant |times| == i + 1 && times[0] == 0.0 && times[i] == t
      invariant forall k, j | 0 <= k && j == k + 1 <= i :: times[j] - times[k] == EdgeTime(distances[k], vx[k])
    {
      var dist := distances[i];
      var v := Max(Abs(vx[i]), 0.1);
      t := t + Max(Quotient(dist, v), MIN_DT);
      times := times + [t];
    }
  }

  /** Recomputed times strictly increase by at least the minimum step, over any number of points. */
  lemma {:induction false} TimesIncrease(times: seq<real>, distances: seq<real>, vx: seq<real>, i: nat, j: nat)
    requires |vx| == |distances| + 1 == |times| && i <= j < |times|
    requires forall k, l | 0 <= k && l == k + 1 < |times| :: times[l] - times[k] == EdgeTime(distances[k], vx[k])
    ensures times[j] - times[i] >= Mul((j - i) as real, MIN_DT)
    decreases j - i
  {
    if i < j {
      var before := j - 1;
      TimesIncrease(times, distances, vx, i, before);
      assert times[j] - times[before] == EdgeTime(distances[before], vx[before]);
      assert Mul((j - i) as real, MIN_DT) == Mul((before - i) as real, MIN_DT) + MIN_DT;
    } else {
      assert Mul(0.0, MIN_DT) == 0.0;
    }
  }

  // ----- velocity smoothing -----

  const EPSILON := 1.0 / 4503599627370496.0

  function Dt(ds: real, v: real): real {
    Quotient(ds, Max(Abs(v), EPSILON))
  }

  function Gain(tau: real, dt: real): real {
    Quotient(tau, Max(tau + dt, EPSILON))
  }

  /** A first-order filter with gain a towards the reference, limited to a change of `limit`. */
  function Filtered(curr: real, reference: real, a: real, limit: real): real {
    var updated := Mul(a, curr) + Mul(1.0 - a, reference);
    curr + Max(-limit, Min(limit, updated - curr))
  }

  function SmoothedVelocity(curr: real, reference: real, ds: real, accLim: real, tau: real): real {
    Filtered(curr, reference, Gain(tau, Dt(ds, curr)), Mul(accLim, Dt(ds, curr)))
  }

  predicate Between(x: real, y: real, z: real) {
    x <= y <= z || z <= y <= x
  }

  lemma GainInUnit(tau: real, dt: real)
    requires tau >= 0.0 && dt >= 0.0
    ensures 0.0 <= Gain(tau, dt) <= 1.0
  {
    var d := Max(tau + dt, EPSILON);
    assert Mul(0.0, d) == 0.0 && Mul(1.0, d) == d;
    QuotientBetween(tau, d, 0.0, 1.0);
  }

  lemma ConvexBetween(a: real, x: real, y: real)
    requires 0.0 <= a <= 1.0
    ensures Between(x, Mul(a, x) + Mul(1.0 - a, y), y)
  {
    var z := Mul(a, x) + Mul(1.0 - a, y);
    assert z - x == (1.0 - a) * (y - x);
    assert y - z == a * (y - x);
    if x <= y {
      ProductNonNegative(1.0 - a, y - x);
      ProductNonNegative(a, y - x);
    } else {
      ProductNonNegative(1.0 - a, x - y);
      ProductNonNegative(a, x - y);
      assert (1.0 - a) * (x - y) == -((1.0 - a) * (y - x)) && a * (x - y) == -(a * (y - x));
    }
  }

  lemma FilteredIsBounded(curr: real, reference: real, a: real, limit: real)
    requires 0.0 <= a <= 1.0 && limit >= 0.0
    ensures Between(curr, Filtered(curr, reference, a, limit), reference)
    ensures Abs(Filtered(curr, reference, a, limit) - curr) <= limit
  {
    ConvexBetween(a, curr, reference);
  }

  lemma DtNonNegative(ds: real, v: real)
    requires ds >= 0.0
    ensures Dt(ds, v) >= 0.0
  {
    QuotientNonNegative(ds, Max(Abs(v), EPSILON));
  }

  /** Each smoothed velocity lies between its predecessor and its reference, and changes by no more
      than the acceleration limit allows over the edge. */
  lemma SmoothingIsBounded(curr: real, reference: real, ds: real, accLim: real, tau: real)
    requires ds >= 0.0 && accLim >= 0.0 && tau >= 0.0
    ensures Between(curr, SmoothedVelocity(curr, reference, ds, accLim, tau), reference)
    ensures Abs(SmoothedVelocity(curr, reference, ds, accLim, tau) - curr) <= Mul(accLim, Dt(ds, curr))
  {
    DtNonNegative(ds, curr);
    GainInUnit(tau, Dt(ds, curr));
    ProductNonNegative(accLim, Dt(ds, curr));
    FilteredIsBounded(curr, reference, Gain(tau, Dt(ds, curr)), Mul(accLim, Dt(ds, curr)));
  }

  method SmoothNext(curr: real, reference: real, ds: real, accLim: real, tau: real) returns (v: real)
    ensures v == SmoothedVelocity(curr, reference, ds, accLim, tau)
  {
    var dt := Quotient(ds, Max(Abs(curr), EPSILON));
    var a := Quotient(tau, Max(tau + dt, EPSILON));
    var updated := Mul(a, curr) + Mul(1.0 - a, reference);
    var dv := Max(-Mul(accLim, dt), Min(Mul(accLim, dt), updated - curr));
    v := curr + dv;
  }

  /** In place: the segment gets the start velocity, and each later point is smoothed from its new
      predecessor and its old value; points before the segment stay. `lengths[i]` is the edge that
      ends at point i. False where the source's checked access would throw. */
  method DynamicSmoothingVelocity(start: nat, startVel: real, accLim: real, tau: real, lengths: seq<real>,
        vx: array<real>)
    returns (ok: bool)
    requires |lengths| == vx.Length
    modifies vx
    ensures ok <==> start < vx.Length && (vx.Length > 1 ==> start + 1 < vx.Length)
    ensures ok ==> vx[start] == startVel && (vx.Length > 1 ==> vx[start + 1] == startVel)
    ensures forall i | 0 <= i < start && i < vx.Length :: vx[i] == old(vx[i])
    ensures ok ==> forall i, j | start + 1 <= i && j == i + 1 < vx.Length ::
                     vx[j] == SmoothedVelocity(vx[i], old(vx[j]), lengths[j], accLim, tau)
  {
    if start >= vx.Length {
      return false;
    }
    vx[start] := startVel;
    if 1 < vx.Length {
      if start + 1 >= vx.Length {
        return false;
      }
      vx[start + 1] := startVel;
    }
    var currV := startVel;
    var i := start + 2;
    while i < vx.Length
      invariant start + 2 <= i && (vx.Length > 1 ==> i <= vx.Length)
      invariant vx[start] == startVel && (vx.Length > 1 ==> vx[start + 1] == startVel && vx[i - 1] == currV)
      invariant forall k | 0 <= k < start :: vx[k] == old(vx[k])
      invariant forall k | i <= k < vx.Length :: vx[k] == old(vx[k])
      invariant forall k, j | start + 1 <= k && j == k + 1 < i && j < vx.Length ::
                  vx[j] == SmoothedVelocity(vx[k], old(vx[j]), lengths[j], accLim, tau)
    {
      currV := SmoothNext(currV, vx[i], lengths[i], accLim, tau);
      vx[i] := currV;
      i := i + 1;
    }
    return true;
  }
}
