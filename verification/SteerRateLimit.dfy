/** mpc.cpp, `calcSteerRateLimitOnTrajectory`: steering-rate limits by curvature and by speed. */
module SteerRateLimit {
  import opened RealArithmetic

  datatype Point = Point(key: real, limit: real)

  /** The smallest key distance the division is done with. */
  const GUARD := 0.00001

  predicate Contains(table: seq<Point>, i: nat, current: real)
    requires i + 1 < |table|
  {
    table[i].key <= current <= table[i + 1].key
  }

  function Ratio(a: Point, b: Point, current: real): (q: real)
    ensures 0.0 <= q <= 1.0
  {
    Clamp(Quotient(current - a.key, Max(b.key - a.key, GUARD)), 0.0, 1.0)
  }

  function Along(a: Point, b: Point, current: real): real {
    a.limit + Mul(Ratio(a, b, current), b.limit - a.limit)
  }

  /** Held constant outside the table; inside, the answer of the first segment that contains the key. */
  ghost predicate LookedUp(table: seq<Point>, current: real, value: real)
    requires table != []
  {
    var last := |table| - 1;
    if current <= table[0].key then value == table[0].limit
    else if current >= table[last].key then value == table[last].limit
    else exists i: nat :: i < last && FirstSegment(table, i, current) && value == Along(table[i], table[i + 1], current)
  }

  predicate FirstSegment(table: seq<Point>, i: nat, current: real)
    requires i + 1 < |table|
  {
    Contains(table, i, current) && forall k: nat | k < i :: !Contains(table, k, current)
  }

  /** For any table, sorted or not, a segment is found: the error branch is never reached. */
  method Interpolate(table: seq<Point>, current: real) returns (value: real)
    requires table != []
    ensures LookedUp(table, current, value)
  {
    if current <= table[0].key {
      return table[0].limit;
    }
    if current >= table[|table| - 1].key {
      return table[|table| - 1].limit;
    }
    for i := 0 to |table| - 1
      invariant table[i].key <= current
      invariant forall k: nat | k < i :: !Contains(table, k, current)
    {
      if table[i].key <= current <= table[i + 1].key {
        var ratio := Quotient(current - table[i].key, Max(table[i + 1].key - table[i].key, GUARD));
        ratio := Clamp(ratio, 0.0, 1.0);
        value := table[i].limit + Mul(ratio, table[i + 1].limit - table[i].limit);
        assert FirstSegment(table, i, current);
        return;
      }
      assert !Contains(table, i, current);
    }
    assert false;
  }

  /** For any table a looked-up limit lies within the range of the stored ones. */
  lemma LookedUpIsBounded(table: seq<Point>, current: real, value: real, low: real, high: real)
    requires table != [] && LookedUp(table, current, value)
    requires forall i | 0 <= i < |table| :: low <= table[i].limit <= high
    ensures low <= value <= high
  {
    if table[0].key < current < table[|table| - 1].key {
      var i: nat :| i + 1 < |table| && FirstSegment(table, i, current)
                    && value == Along(table[i], table[i + 1], current);
      Between(Ratio(table[i], table[i + 1], current), table[i].limit, table[i + 1].limit);
    }
  }

  lemma Between(q: real, x: real, y: real)
    requires 0.0 <= q <= 1.0
    ensures x <= y ==> x <= x + Mul(q, y - x) <= y
    ensures y <= x ==> y <= x + Mul(q, y - x) <= x
  {
    if x <= y {
      ProductMonotone(y - x, 0.0, q);
      ProductMonotone(y - x, q, 1.0);
    } else {
      ProductMonotone(x - y, 0.0, q);
      ProductMonotone(x - y, q, 1.0);
      assert Mul(q, y - x) == -Mul(x - y, q);
    }
    assert Mul(q, y - x) == Mul(y - x, q) && Mul(x - y, 1.0) == x - y;
  }

  // ----- tables in steps no smaller than the guard -----

  predicate Spaced(table: seq<Point>) {
    table != [] && forall i, j | 0 <= i && j == i + 1 < |table| :: table[j].key - table[i].key >= GUARD
  }

  lemma {:induction false} KeysIncrease(table: seq<Point>, i: nat, j: nat)
    requires Spaced(table) && i < j < |table|
    ensures table[i].key < table[j].key
    decreases j - i
  {
    if i + 1 < j {
      KeysIncrease(table, i, j - 1);
    }
    var before := j - 1;
    assert table[j].key - table[before].key >= GUARD;
  }

  /** On the line through the two ends of segment i. */
  predicate OnSegment(table: seq<Point>, i: nat, current: real, value: real)
    requires i + 1 < |table|
  {
    Mul(value - table[i].limit, table[i + 1].key - table[i].key)
    == Mul(table[i + 1].limit - table[i].limit, current - table[i].key)
  }

  lemma AlongIsOnSegment(table: seq<Point>, i: nat, current: real)
    requires Spaced(table) && i + 1 < |table| && Contains(table, i, current)
    ensures OnSegment(table, i, current, Along(table[i], table[i + 1], current))
  {
    var a, b := table[i], table[i + 1];
    var w, q := b.key - a.key, Quotient(current - a.key, b.key - a.key);
    assert w >= GUARD by {
      var j := i + 1;
      assert table[j].key - table[i].key >= GUARD;
    }
    assert Mul(0.0, w) == 0.0 && Mul(1.0, w) == w;
    QuotientBetween(current - a.key, w, 0.0, 1.0);
    QuotientTimes(current - a.key, w);
    Regroup(q, b.limit - a.limit, w);
  }

  lemma Regroup(q: real, d: real, w: real)
    ensures Mul(Mul(q, d), w) == Mul(d, Mul(q, w))
  {
    assert (q * d) * w == d * (q * w);
  }

  lemma ZeroFactor(d: real, w: real)
    requires w > 0.0 && Mul(d, w) == 0.0
    ensures d == 0.0
  {
    QuotientOfProduct(d, w);
    QuotientOfProduct(0.0, w);
    assert Mul(0.0, w) == 0.0;
  }

  /** At a common knot both neighbours give the limit stored there. */
  lemma SegmentsAgree(table: seq<Point>, i: nat, k: nat, current: real, value: real)
    requires Spaced(table) && i < k && k + 1 < |table|
    requires Contains(table, i, current) && Contains(table, k, current) && OnSegment(table, i, current, value)
    ensures OnSegment(table, k, current, value)
  {
    if i + 1 < k {
      KeysIncrease(table, i + 1, k);
    }
    KeysIncrease(table, i, i + 1);
    var w := table[i + 1].key - table[i].key;
    var d := value - table[i + 1].limit;
    assert Mul(value - table[i].limit, w) == Mul(d, w) + Mul(table[i + 1].limit - table[i].limit, w);
    ZeroFactor(d, w);
    assert Mul(0.0, table[k + 1].key - table[k].key) == 0.0 && Mul(table[k + 1].limit - table[k].limit, 0.0) == 0.0;
  }

  lemma KnotOnSegment(table: seq<Point>, k: nat, current: real, value: real)
    requires k + 1 < |table|
    requires (current == table[k].key && value == table[k].limit)
          || (current == table[k + 1].key && value == table[k + 1].limit)
    ensures OnSegment(table, k, current, value)
  {
    var w, d := table[k + 1].key - table[k].key, table[k + 1].limit - table[k].limit;
    assert Mul(0.0, w) == 0.0 && Mul(d, 0.0) == 0.0;
    assert Mul(d, w) == Mul(table[k + 1].limit - table[k].limit, w);
  }

  /** A key at or outside an end of the table is only in the segment there, at its outer knot. */
  lemma EndsAreKnots(table: seq<Point>, current: real, k: nat)
    requires Spaced(table) && k + 1 < |table| && Contains(table, k, current)
    ensures current <= table[0].key ==> k == 0 && current == table[0].key
    ensures current >= table[|table| - 1].key ==> k + 1 == |table| - 1 && current == table[k + 1].key
  {
    if k > 0 {
      KeysIncrease(table, 0, k);
    }
    if k + 1 < |table| - 1 {
      KeysIncrease(table, k + 1, |table| - 1);
    }
  }

  /** With such a table the limit is the piecewise linear function through it: the first segment found
      is as good as any other that contains the key. */
  lemma LookedUpIsPiecewiseLinear(table: seq<Point>, current: real, value: real, k: nat)
    requires Spaced(table) && k + 1 < |table| && Contains(table, k, current)
    requires LookedUp(table, current, value)
    ensures OnSegment(table, k, current, value)
  {
    var last := |table| - 1;
    EndsAreKnots(table, current, k);
    if current <= table[0].key || current >= table[last].key {
      KeysIncrease(table, 0, last);
      KnotOnSegment(table, k, current, value);
    } else {
      var i: nat :| i < last && FirstSegment(table, i, current) && value == Along(table[i], table[i + 1], current);
      InsideOnSegment(table, i, k, current);
    }
  }

  lemma InsideOnSegment(table: seq<Point>, i: nat, k: nat, current: real)
    requires Spaced(table) && i + 1 < |table| && k + 1 < |table|
    requires FirstSegment(table, i, current) && Contains(table, k, current)
    ensures OnSegment(table, k, current, Along(table[i], table[i + 1], current))
  {
    AlongIsOnSegment(table, i, current);
    if i < k {
      SegmentsAgree(table, i, k, current, Along(table[i], table[i + 1], current));
    }
  }

  // ----- the limits of a horizon -----

  /** A stopped vehicle gets the dry-steering limit at every stage; otherwise each stage gets the
      smaller of its two table values. */
  method CalcSteerRateLimitOnTrajectory(byCurvature: seq<Point>, byVelocity: seq<Point>, k: seq<real>, vx: seq<real>,
                                        velocity: real) returns (limits: seq<real>)
    requires byCurvature != [] && byVelocity != [] && |k| == |vx|
    ensures |limits| == |k|
    ensures Abs(velocity) < 0.01 ==> forall i | 0 <= i < |k| :: limits[i] == 100.0
    ensures Abs(velocity) >= 0.01 ==>
              forall i | 0 <= i < |k| :: StageLimit(byCurvature, byVelocity, k[i], vx[i], limits[i])
  {
    if Abs(velocity) < 0.01 {
      limits := seq(|k|, i => 100.0);
      return;
    }
    limits := [];
    for i := 0 to |k|
      invariant |limits| == i
      invariant forall j | 0 <= j < i :: StageLimit(byCurvature, byVelocity, k[j], vx[j], limits[j])
    {
      var curvature := Interpolate(byCurvature, k[i]);
      var speed := Interpolate(byVelocity, vx[i]);
      limits := limits + [Min(curvature, speed)];
    }
  }

  ghost predicate StageLimit(byCurvature: seq<Point>, byVelocity: seq<Point>, k: real, v: real, limit: real)
    requires byCurvature != [] && byVelocity != []
  {
    exists x, y :: LookedUp(byCurvature, k, x) && LookedUp(byVelocity, v, y) && limit == Min(x, y)
  }
}
