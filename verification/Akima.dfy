/** `splineByAkima` of spline_interpolation.cpp. */
module Akima {
  import opened RealArithmetic
  import opened InterpolationKeys
  import opened Spline

  const SLOPE_EPSILON := 0.00001

  /** The slope of the secant over segment i. */
  function Secant(keys: seq<real>, values: seq<real>, i: nat): real
    requires |keys| <= |values| && i + 1 < |keys| && Increasing(keys)
  {
    Quotient(values[i + 1] - values[i], keys[i + 1] - keys[i])
  }

  /** The slope at knot i from the secants m. */
  function KnotSlope(m: seq<real>, i: nat): real
    requires m != [] && i <= |m|
  {
    if i == 0 then m[0]
    else if i == |m| then m[|m| - 1]
    else if i == 1 || i == |m| - 1 then (m[i - 1] + m[i]) / 2.0
    else
      var after, before := Abs(m[i + 1] - m[i]), Abs(m[i - 1] - m[i - 2]);
      if Abs(after + before) < SLOPE_EPSILON then (m[i - 1] + m[i]) / 2.0
      else Quotient(Mul(after, m[i - 1]) + Mul(before, m[i]), after + before)
  }

  /** The cubic of a segment of width h with end slopes s0 and s1. */
  function Piece(h: real, y: real, m: real, s0: real, s1: real): Cubic
    requires h > 0.0
  {
    SquareNonNegative(h);
    Cubic(Quotient(s0 + s1 - 2.0 * m, Square(h)), Quotient(3.0 * m - 2.0 * s0 - s1, h), s0, y)
  }

  /** A weighted mean of two numbers lies between them. */
  lemma MeanBetween(p: real, q: real, x: real, y: real)
    requires p >= 0.0 && q >= 0.0 && p + q > 0.0
    ensures Min(x, y) <= Quotient(Mul(p, x) + Mul(q, y), p + q) <= Max(x, y)
  {
    var lo, hi := Min(x, y), Max(x, y);
    ProductMonotone(p, lo, x);
    ProductMonotone(p, x, hi);
    ProductMonotone(q, lo, y);
    ProductMonotone(q, y, hi);
    assert Mul(lo, p + q) == Mul(p, lo) + Mul(q, lo);
    assert Mul(hi, p + q) == Mul(p, hi) + Mul(q, hi);
    QuotientBetween(Mul(p, x) + Mul(q, y), p + q, lo, hi);
  }

  /** The slope at an interior knot lies between the secants on its two sides. */
  lemma KnotSlopeBetween(m: seq<real>, i: nat)
    requires 0 < i < |m|
    ensures Min(m[i - 1], m[i]) <= KnotSlope(m, i) <= Max(m[i - 1], m[i])
  {
    if 1 < i < |m| - 1 {
      var after, before := Abs(m[i + 1] - m[i]), Abs(m[i - 1] - m[i - 2]);
      if Abs(after + before) >= SLOPE_EPSILON {
        MeanBetween(after, before, m[i - 1], m[i]);
      }
    }
  }

  /** The piece meets both base values with the prescribed slopes. */
  lemma PieceMeaning(h: real, y0: real, y1: real, s0: real, s1: real)
    requires h > 0.0
    ensures var c := Piece(h, y0, Quotient(y1 - y0, h), s0, s1);
            && c.Value(0.0) == y0 && c.Value(h) == y1
            && c.Slope(0.0) == s0 && c.Slope(h) == s1
  {
    SquareNonNegative(h);
    var m := Quotient(y1 - y0, h);
    var a, b := Quotient(s0 + s1 - 2.0 * m, Square(h)), Quotient(3.0 * m - 2.0 * s0 - s1, h);
    QuotientTimes(y1 - y0, h);
    QuotientTimes(s0 + s1 - 2.0 * m, Square(h));
    QuotientTimes(3.0 * m - 2.0 * s0 - s1, h);
    PieceArithmetic(h, y0, y1, s0, s1, m, a, b);
  }

  lemma PieceArithmetic(h: real, y0: real, y1: real, s0: real, s1: real, m: real, a: real, b: real)
    requires Mul(m, h) == y1 - y0 && Mul(a, Square(h)) == s0 + s1 - 2.0 * m && Mul(b, h) == 3.0 * m - 2.0 * s0 - s1
    ensures var c := Cubic(a, b, s0, y0);
            c.Value(0.0) == y0 && c.Value(h) == y1 && c.Slope(0.0) == s0 && c.Slope(h) == s1
  {
    var ah, bh := Mul(a, Square(h)), Mul(b, h);
    CubicAtEnd(a, b, s0, y0, h);
    assert Mul(ah, h) == s0 * h + s1 * h - 2.0 * (m * h);
    assert Mul(bh, h) == 3.0 * (m * h) - 2.0 * (s0 * h) - s1 * h;
  }

  lemma CubicAtEnd(a: real, b: real, s: real, y: real, h: real)
    ensures Cubic(a, b, s, y).Value(h) == Mul(Mul(a, Square(h)), h) + Mul(Mul(b, h), h) + s * h + y
    ensures Cubic(a, b, s, y).Slope(h) == 3.0 * Mul(a, Square(h)) + 2.0 * Mul(b, h) + s
  {
    assert a * h * h == Mul(a, Square(h));
    assert 3.0 * a * h * h == 3.0 * (a * h * h);
    assert 2.0 * b * h == 2.0 * (b * h);
  }

  function SecantSlopes(keys: seq<real>, values: seq<real>): (m: seq<real>)
    requires 2 <= |keys| <= |values| && Increasing(keys)
    ensures |m| == |keys| - 1
  {
    seq(|keys| - 1, i requires 0 <= i < |keys| - 1 => Secant(keys, values, i))
  }

  /** The piece of segment i. */
  function PieceAt(keys: seq<real>, values: seq<real>, i: nat): Cubic
    requires 2 <= |keys| <= |values| && Increasing(keys) && i + 1 < |keys|
  {
    var m := SecantSlopes(keys, values);
    Piece(Width(keys, i), values[i], m[i], KnotSlope(m, i), KnotSlope(m, i + 1))
  }

  /** Every piece interpolates its two base points and takes the knot slopes there, so that
      neighbouring pieces agree in slope. */
  lemma ContinuouslyDifferentiable(keys: seq<real>, values: seq<real>, i: nat)
    requires 2 <= |keys| <= |values| && Increasing(keys) && i + 1 < |keys|
    ensures var p := PieceAt(keys, values, i);
            && p.Value(0.0) == values[i] && p.Value(Width(keys, i)) == values[i + 1]
            && (i + 2 < |keys| ==> p.Slope(Width(keys, i)) == PieceAt(keys, values, i + 1).Slope(0.0))
  {
    var m := SecantSlopes(keys, values);
    PieceMeaning(Width(keys, i), values[i], values[i + 1], KnotSlope(m, i), KnotSlope(m, i + 1));
    if i + 2 < |keys| {
      PieceMeaning(Width(keys, i + 1), values[i + 1], values[i + 2], KnotSlope(m, i + 1), KnotSlope(m, i + 2));
    }
  }

  // ----- the algorithm -----

  datatype Outcome = OutOfRange | Interpolated(values: seq<real>)

  /** The cursor after query k: it never moves back. */
  ghost function Cursor(keys: seq<real>, queries: seq<real>, k: nat): (j: nat)
    requires |keys| >= 2 && Increasing(keys) && k < |queries|
    ensures j + 1 < |keys|
  {
    var here := Segment(keys, queries[k]);
    if k == 0 then here
    else
      var before := Cursor(keys, queries, k - 1);
      if before < here then here else before
  }

  /** For sorted queries the cursor selects the segment of the binary search. */
  lemma {:induction false} CursorIsSegment(keys: seq<real>, queries: seq<real>, k: nat)
    requires |keys| >= 2 && Increasing(keys) && NotDecreasing(queries) && k < |queries|
    ensures Cursor(keys, queries, k) == Segment(keys, queries[k])
  {
    if k > 0 {
      CursorIsSegment(keys, queries, k - 1);
      SegmentMonotone(keys, queries[k - 1], queries[k]);
    }
  }

  method Secants(keys: seq<real>, values: seq<real>) returns (m: seq<real>)
    requires 2 <= |keys| <= |values| && Increasing(keys)
    ensures m == SecantSlopes(keys, values)
  {
    m := [];
    for i := 0 to |keys| - 1
      invariant |m| == i && forall k | 0 <= k < i :: m[k] == Secant(keys, values, k)
    {
      m := m + [Quotient(values[i + 1] - values[i], keys[i + 1] - keys[i])];
    }
  }

  method KnotSlopes(m: seq<real>) returns (s: seq<real>)
    requires m != []
    ensures |s| == |m| + 1 && forall k | 0 <= k < |s| :: s[k] == KnotSlope(m, k)
  {
    s := [];
    for i := 0 to |m| + 1
      invariant |s| == i && forall k | 0 <= k < i :: s[k] == KnotSlope(m, k)
    {
      if i == 0 {
        s := s + [m[0]];
      } else if i == |m| {
        s := s + [m[|m| - 1]];
      } else if i == 1 || i == |m| - 1 {
        s := s + [(m[i - 1] + m[i]) / 2.0];
      } else {
        var denominator := Abs(m[i + 1] - m[i]) + Abs(m[i - 1] - m[i - 2]);
        if Abs(denominator) < SLOPE_EPSILON {
          s := s + [(m[i - 1] + m[i]) / 2.0];
        } else {
          s := s + [Quotient(Mul(Abs(m[i + 1] - m[i]), m[i - 1]) + Mul(Abs(m[i - 1] - m[i - 2]), m[i]), denominator)];
        }
      }
    }
  }

  /** Nested evaluation, as the code writes it. */
  function Horner(c: Cubic, t: real): real {
    c.d + (c.c + (c.b + c.a * t) * t) * t
  }

  lemma HornerIsValue(c: Cubic, t: real)
    ensures Horner(c, t) == c.Value(t)
  {
    assert (c.c + (c.b + c.a * t) * t) * t == c.c * t + (c.b + c.a * t) * t * t;
  }

  /** The cursor positions after k queries, none of which lies above the base keys. */
  ghost predicate CursorAfter(keys: seq<real>, queries: seq<real>, k: nat, j: nat)
    requires |keys| >= 2 && Increasing(keys) && k <= |queries|
  {
    && (if k == 0 then j == 0 else j == Cursor(keys, queries, k - 1))
    && forall i | 0 <= i < k :: queries[i] <= keys[|keys| - 1]
  }

  /** The interpolated value of query k. */
  ghost function ValueAt(keys: seq<real>, values: seq<real>, queries: seq<real>, k: nat): real
    requires 2 <= |keys| <= |values| && Increasing(keys) && k < |queries|
  {
    var j := Cursor(keys, queries, k);
    PieceAt(keys, values, j).Value(queries[k] - keys[j])
  }

  method EvaluatePiece(keys: seq<real>, values: seq<real>, m: seq<real>, s: seq<real>, j: nat, queries: seq<real>,
        k: nat)
    returns (value: real)
    requires 2 <= |keys| <= |values| && Increasing(keys) && j + 1 < |keys|
    requires k < |queries| && CursorAfter(keys, queries, k + 1, j)
    requires m == SecantSlopes(keys, values) && |s| == |keys|
    requires forall k | 0 <= k < |s| :: s[k] == KnotSlope(m, k)
    ensures value == ValueAt(keys, values, queries, k)
  {
    var c := Piece(Width(keys, j), values[j], m[j], s[j], s[j + 1]);
    HornerIsValue(c, queries[k] - keys[j]);
    value := Horner(c, queries[k] - keys[j]);
  }

  /** Every query is evaluated on the piece under the cursor; a query above the base keys
      runs the cursor out of range. */
  method SplineByAkima(keys: seq<real>, values: seq<real>, queries: seq<real>) returns (r: Outcome)
    requires |keys| >= 2 && Increasing(keys)
    ensures r.OutOfRange? <==> |values| < |keys| || exists k :: 0 <= k < |queries| && queries[k] > keys[|keys| - 1]
    ensures r.Interpolated? ==> |r.values| == |queries|
    ensures r.Interpolated? ==> forall k | 0 <= k < |queries| :: r.values[k] == ValueAt(keys, values, queries, k)
  {
    if |values| < |keys| {
      return OutOfRange;
    }
    var m := Secants(keys, values);
    var s := KnotSlopes(m);
    var results: seq<real> := [];
    var j := 0;
    for k := 0 to |queries|
      invariant j + 1 < |keys|
      invariant CursorAfter(keys, queries, k, j)
      invariant Evaluated(keys, values, queries, k, results)
    {
      ghost var start := j;
      j := AdvanceCursor(keys, j, queries[k]);
      if j + 1 == |keys| {
        return OutOfRange;
      }
      CursorStep(keys, queries, k, start, j);
      var value := EvaluatePiece(keys, values, m, s, j, queries, k);
      OneMore(keys, values, queries, k, results, value);
      results := results + [value];
    }
    return Interpolated(results);
  }

  ghost predicate Evaluated(keys: seq<real>, values: seq<real>, queries: seq<real>, k: nat, results: seq<real>)
    requires 2 <= |keys| <= |values| && Increasing(keys) && k <= |queries|
  {
    |results| == k && forall i | 0 <= i < k :: results[i] == ValueAt(keys, values, queries, i)
  }

  lemma OneMore(keys: seq<real>, values: seq<real>, queries: seq<real>, k: nat, results: seq<real>, value: real)
    requires 2 <= |keys| <= |values| && Increasing(keys) && k < |queries|
    requires Evaluated(keys, values, queries, k, results) && value == ValueAt(keys, values, queries, k)
    ensures Evaluated(keys, values, queries, k + 1, results + [value])
  {
  }

  lemma CursorStep(keys: seq<real>, queries: seq<real>, k: nat, start: nat, j: nat)
    requires |keys| >= 2 && Increasing(keys) && k < |queries| && start <= j && j + 1 < |keys|
    requires CursorAfter(keys, queries, k, start)
    requires j > start ==> keys[j] < queries[k]
    requires queries[k] <= keys[j + 1]
    ensures CursorAfter(keys, queries, k + 1, j)
  {
    SegmentBound(keys, queries[k], start, j);
    Ordered(keys, j + 1, |keys| - 1);
  }

  /** A forward search from `start` stops at the later of `start` and the segment of the key. */
  lemma SegmentBound(keys: seq<real>, key: real, start: nat, j: nat)
    requires |keys| >= 2 && Increasing(keys) && start <= j && j + 1 < |keys|
    requires j > start ==> keys[j] < key
    requires key <= keys[j + 1]
    ensures j == if start < Segment(keys, key) then Segment(keys, key) else start
  {
    var here := Segment(keys, key);
    Ordered(keys, here + 1, j);
    Ordered(keys, j + 1, here);
  }
}
