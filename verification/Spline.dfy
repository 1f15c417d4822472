/** The natural cubic spline of spline_interpolation.cpp. */
module Spline {
  import opened RealArithmetic
  import opened InterpolationKeys
  import Tridiagonal

  /** a * t^3 + b * t^2 + c * t + d on one segment. */
  datatype Cubic = Cubic(a: real, b: real, c: real, d: real) {
    function Value(t: real): real {
      a * t * t * t + b * t * t + c * t + d
    }

    function Slope(t: real): real {
      3.0 * a * t * t + 2.0 * b * t + c
    }

    function Curvature(t: real): real {
      6.0 * a * t + 2.0 * b
    }
  }

  function Width(keys: seq<real>, i: nat): real
    requires i + 1 < |keys|
  {
    keys[i + 1] - keys[i]
  }

  function Rise(values: seq<real>, i: nat): real
    requires i + 1 < |values|
  {
    values[i + 1] - values[i]
  }

  /** Piece i passes through both of its base points. */
  ghost predicate Interpolates(keys: seq<real>, values: seq<real>, pieces: seq<Cubic>, i: nat)
    requires |keys| == |values| == |pieces| + 1 && i < |pieces|
  {
    pieces[i].Value(0.0) == values[i] && pieces[i].Value(Width(keys, i)) == values[i + 1]
  }

  /** The end of a piece of width h meets the start of the next in slope and curvature. */
  predicate Joined(piece: Cubic, next: Cubic, h: real) {
    piece.Slope(h) == next.Slope(0.0) && piece.Curvature(h) == next.Curvature(0.0)
  }

  /** Pieces i and i + 1 agree in slope and curvature at their common knot. */
  ghost predicate Smooth(keys: seq<real>, pieces: seq<Cubic>, i: nat)
    requires |keys| == |pieces| + 1 && i + 1 < |pieces|
  {
    Joined(pieces[i], pieces[i + 1], Width(keys, i))
  }

  /** Through all base points, twice continuously differentiable, straight at both ends. */
  ghost predicate NaturalSpline(keys: seq<real>, values: seq<real>, pieces: seq<Cubic>) {
    && |keys| == |values| == |pieces| + 1 && |pieces| >= 1
    && (forall i | 0 <= i < |pieces| :: Interpolates(keys, values, pieces, i))
    && (forall i | 0 <= i < |pieces| - 1 :: Smooth(keys, pieces, i))
    && pieces[0].Curvature(0.0) == 0.0
    && pieces[|pieces| - 1].Curvature(Width(keys, |pieces| - 1)) == 0.0
  }

  /** The piece with curvatures v0 and v1 at its ends. */
  function Piece(h: real, y0: real, y1: real, v0: real, v1: real): Cubic
    requires h > 0.0
  {
    Cubic(Quotient((v1 - v0) / 6.0, h), v0 / 2.0, Quotient(y1 - y0, h) - h * (2.0 * v0 + v1) / 6.0, y0)
  }

  lemma PieceMeaning(h: real, y0: real, y1: real, v0: real, v1: real)
    requires h > 0.0
    ensures var s := Piece(h, y0, y1, v0, v1);
            && s.Value(0.0) == y0 && s.Value(h) == y1
            && s.Curvature(0.0) == v0 && s.Curvature(h) == v1
            && s.Slope(0.0) == Quotient(y1 - y0, h) - h * (2.0 * v0 + v1) / 6.0
            && s.Slope(h) == Quotient(y1 - y0, h) + h * (v0 + 2.0 * v1) / 6.0
  {
    var a, q := Quotient((v1 - v0) / 6.0, h), Quotient(y1 - y0, h);
    assert a * h == (v1 - v0) / 6.0;
    assert q * h == y1 - y0;
    var s := Piece(h, y0, y1, v0, v1);
    assert s.Value(h) == (a * h) * (h * h) + v0 / 2.0 * (h * h) + q * h - (2.0 * v0 + v1) / 6.0 * (h * h) + y0;
    assert s.Slope(h) == 3.0 * (a * h) * h + v0 * h + q - h * (2.0 * v0 + v1) / 6.0;
  }

  /** A cubic is determined by its end values and end curvatures. */
  lemma PieceUnique(h: real, s: Cubic)
    requires h > 0.0
    ensures s == Piece(h, s.Value(0.0), s.Value(h), s.Curvature(0.0), s.Curvature(h))
  {
    var rise, dv := s.Value(h) - s.Value(0.0), s.Curvature(h) - s.Curvature(0.0);
    assert dv == 6.0 * s.a * h;
    assert dv / 6.0 / h == s.a;
    assert rise == (s.a * h * h + s.b * h + s.c) * h;
    assert rise / h == s.a * h * h + s.b * h + s.c;
    assert h * (2.0 * s.Curvature(0.0) + s.Curvature(h)) / 6.0 == s.b * h + s.a * h * h;
  }

  // ----- the tridiagonal system -----

  /** Six times the change of the secant slope at knot i + 1. */
  function Bend(keys: seq<real>, values: seq<real>, i: nat): real
    requires |keys| == |values| && Increasing(keys) && i + 2 < |keys|
  {
    6.0 * (Quotient(Rise(values, i + 1), Width(keys, i + 1)) - Quotient(Rise(values, i), Width(keys, i)))
  }

  /** The system for the curvatures at the interior knots. */
  function CurvatureSystem(keys: seq<real>, values: seq<real>): Tridiagonal.System
    requires |keys| == |values| >= 3 && Increasing(keys)
  {
    var n := |keys|;
    Tridiagonal.System(
      seq(n - 3, i requires 0 <= i < n - 3 => Width(keys, i + 1)),
      seq(n - 2, i requires 0 <= i < n - 2 => 2.0 * (Width(keys, i) + Width(keys, i + 1))),
      seq(n - 3, i requires 0 <= i < n - 3 => Width(keys, i + 1)),
      seq(n - 2, i requires 0 <= i < n - 2 =>
            Bend(keys, values, i)))
  }

  /** For strictly increasing keys the system never has a zero pivot. */
  lemma CurvatureSystemSolvable(keys: seq<real>, values: seq<real>)
    requires |keys| == |values| >= 3 && Increasing(keys)
    ensures CurvatureSystem(keys, values).Valid() && CurvatureSystem(keys, values).NoZeroPivot()
  {
    var s := CurvatureSystem(keys, values);
    forall i | 0 <= i < s.Size()
      ensures s.b[i] > (if i == 0 then 0.0 else Abs(s.a[i - 1])) + (if i == s.Size() - 1 then 0.0 else Abs(s.c[i]))
    {
      assert s.b[i] == 2.0 * (Width(keys, i) + Width(keys, i + 1));
      assert i > 0 ==> s.a[i - 1] == Width(keys, i);
    }
    Tridiagonal.DominantHasNoZeroPivot(s);
  }

  /** v lists the curvatures at all knots; its interior is x. */
  ghost predicate Padded(x: seq<real>, v: seq<real>) {
    |v| == |x| + 2 && v[0] == 0.0 && v[|v| - 1] == 0.0 && v[1..|v| - 1] == x
  }

  /** The pieces with the curvatures v at the knots. */
  function Pieces(keys: seq<real>, values: seq<real>, v: seq<real>): (r: seq<Cubic>)
    requires |keys| == |values| == |v| >= 2 && Increasing(keys)
  {
    seq(|keys| - 1, i requires 0 <= i < |keys| - 1 => Piece(Width(keys, i), values[i], values[i + 1], v[i], v[i + 1]))
  }

  /** Row i of a system whose off-diagonal entries next to the ends meet zero curvatures. */
  lemma RowMeaning(s: Tridiagonal.System, x: seq<real>, i: nat, h0: real, h1: real, v0: real, v1: real, v2: real)
    requires s.Valid() && |x| == s.Size() && i < |x|
    requires s.b[i] == 2.0 * (h0 + h1) && x[i] == v1
    requires if i == 0 then v0 == 0.0 else s.a[i - 1] == h0 && x[i - 1] == v0
    requires if i == |x| - 1 then v2 == 0.0 else s.c[i] == h1 && x[i + 1] == v2
    ensures s.Row(x, i) <==> Mul(h0, v0) + Mul(2.0 * (h0 + h1), v1) + Mul(h1, v2) == s.d[i]
  {
    MulZero(h0, v0);
    MulZero(h1, v2);
  }

  lemma SystemEntries(keys: seq<real>, values: seq<real>, i: nat)
    requires |keys| == |values| >= 3 && Increasing(keys) && i < |keys| - 2
    ensures var s := CurvatureSystem(keys, values);
            && s.Valid() && s.Size() == |keys| - 2
            && s.b[i] == 2.0 * (Width(keys, i) + Width(keys, i + 1))
            && (i > 0 ==> s.a[i - 1] == Width(keys, i))
            && (i < |keys| - 3 ==> s.c[i] == Width(keys, i + 1))
            && s.d[i] == Bend(keys, values, i)
  {
  }

  lemma MulZero(x: real, y: real)
    ensures y == 0.0 ==> Mul(x, y) == 0.0
  {
  }

  /** Row i of the system says that the slopes agree at knot i + 1. */
  lemma RowIffSmooth(keys: seq<real>, values: seq<real>, v: seq<real>, x: seq<real>, i: nat)
    requires |keys| == |values| == |v| >= 3 && Increasing(keys)
    requires Padded(x, v) && i < |x|
    ensures CurvatureSystem(keys, values).Row(x, i) <==> Smooth(keys, Pieces(keys, values, v), i)
  {
    var h0, h1 := Width(keys, i), Width(keys, i + 1);
    SystemEntries(keys, values, i);
    RowMeaning(CurvatureSystem(keys, values), x, i, h0, h1, v[i], v[i + 1], v[i + 2]);
    SmoothIff(h0, h1, values[i], values[i + 1], values[i + 2], v[i], v[i + 1], v[i + 2]);
  }

  /** Neighbouring pieces with common curvature v1 agree in slope exactly when the row holds. */
  lemma SmoothIff(h0: real, h1: real, y0: real, y1: real, y2: real, v0: real, v1: real, v2: real)
    requires h0 > 0.0 && h1 > 0.0
    ensures Joined(Piece(h0, y0, y1, v0, v1), Piece(h1, y1, y2, v1, v2), h0)
       <==> Mul(h0, v0) + Mul(2.0 * (h0 + h1), v1) + Mul(h1, v2)
            == 6.0 * (Quotient(y2 - y1, h1) - Quotient(y1 - y0, h0))
  {
    PieceMeaning(h0, y0, y1, v0, v1);
    PieceMeaning(h1, y1, y2, v1, v2);
    SlopeArithmetic(h0, h1, Quotient(y1 - y0, h0), Quotient(y2 - y1, h1), v0, v1, v2);
  }

  lemma SlopeArithmetic(h0: real, h1: real, q0: real, q1: real, v0: real, v1: real, v2: real)
    ensures q0 + h0 * (v0 + 2.0 * v1) / 6.0 == q1 - h1 * (2.0 * v1 + v2) / 6.0
       <==> Mul(h0, v0) + Mul(2.0 * (h0 + h1), v1) + Mul(h1, v2) == 6.0 * (q1 - q0)
  {
  }

  lemma CurvaturesGiveSpline(keys: seq<real>, values: seq<real>, v: seq<real>, x: seq<real>)
    requires |keys| == |values| == |v| >= 3 && Increasing(keys)
    requires Padded(x, v) && CurvatureSystem(keys, values).Solution(x)
    ensures NaturalSpline(keys, values, Pieces(keys, values, v))
  {
    forall i | 0 <= i < |keys| - 1
      ensures Interpolates(keys, values, Pieces(keys, values, v), i)
    {
      PieceMeaning(Width(keys, i), values[i], values[i + 1], v[i], v[i + 1]);
    }
    forall i | 0 <= i < |keys| - 2
      ensures Smooth(keys, Pieces(keys, values, v), i)
    {
      RowIffSmooth(keys, values, v, x, i);
    }
    var last := |keys| - 2;
    PieceMeaning(Width(keys, 0), values[0], values[1], v[0], v[1]);
    PieceMeaning(Width(keys, last), values[last], values[last + 1], v[last], v[last + 1]);
  }

  // ----- uniqueness -----

  /** The curvatures of a spline at its knots. */
  ghost function KnotCurvatures(keys: seq<real>, pieces: seq<Cubic>): seq<real>
    requires |keys| == |pieces| + 1 && |pieces| >= 1
  {
    seq(|keys|, i requires 0 <= i < |keys| =>
          if i < |pieces| then pieces[i].Curvature(0.0) else pieces[i - 1].Curvature(Width(keys, i - 1)))
  }

  lemma KnotCurvatureOf(keys: seq<real>, pieces: seq<Cubic>, i: nat)
    requires |keys| == |pieces| + 1 && i < |pieces|
    requires i + 1 < |pieces| ==> Smooth(keys, pieces, i)
    ensures KnotCurvatures(keys, pieces)[i] == pieces[i].Curvature(0.0)
    ensures KnotCurvatures(keys, pieces)[i + 1] == pieces[i].Curvature(Width(keys, i))
  {
  }

  lemma PieceFromCurvatures(keys: seq<real>, values: seq<real>, pieces: seq<Cubic>, i: nat)
    requires |keys| == |values| == |pieces| + 1 && i < |pieces| && Increasing(keys)
    requires Interpolates(keys, values, pieces, i) && (i + 1 < |pieces| ==> Smooth(keys, pieces, i))
    ensures var v := KnotCurvatures(keys, pieces);
            pieces[i] == Piece(Width(keys, i), values[i], values[i + 1], v[i], v[i + 1])
  {
    KnotCurvatureOf(keys, pieces, i);
    PieceUnique(Width(keys, i), pieces[i]);
  }

  /** Every natural spline is built from its knot curvatures. */
  lemma SplineFromCurvatures(keys: seq<real>, values: seq<real>, pieces: seq<Cubic>)
    requires NaturalSpline(keys, values, pieces) && Increasing(keys)
    ensures pieces == Pieces(keys, values, KnotCurvatures(keys, pieces))
  {
    var built := Pieces(keys, values, KnotCurvatures(keys, pieces));
    forall i | 0 <= i < |pieces|
      ensures pieces[i] == built[i]
    {
      PieceFromCurvatures(keys, values, pieces, i);
    }
  }

  lemma SplineSolvesSystem(keys: seq<real>, values: seq<real>, pieces: seq<Cubic>)
    requires NaturalSpline(keys, values, pieces) && Increasing(keys) && |pieces| >= 2
    ensures var v := KnotCurvatures(keys, pieces);
            Padded(v[1..|v| - 1], v) && CurvatureSystem(keys, values).Solution(v[1..|v| - 1])
  {
    var v := KnotCurvatures(keys, pieces);
    var x := v[1..|v| - 1];
    SplineFromCurvatures(keys, values, pieces);
    forall i | 0 <= i < |x|
      ensures CurvatureSystem(keys, values).Row(x, i)
    {
      assert Smooth(keys, pieces, i);
      RowIffSmooth(keys, values, v, x, i);
    }
  }

  /** There is only one natural cubic spline through given points. */
  lemma NaturalSplineUnique(keys: seq<real>, values: seq<real>, p: seq<Cubic>, q: seq<Cubic>)
    requires Increasing(keys)
    requires NaturalSpline(keys, values, p) && NaturalSpline(keys, values, q)
    ensures p == q
  {
    SplineFromCurvatures(keys, values, p);
    SplineFromCurvatures(keys, values, q);
    SameCurvatures(keys, values, p, q);
  }

  lemma SameCurvatures(keys: seq<real>, values: seq<real>, p: seq<Cubic>, q: seq<Cubic>)
    requires Increasing(keys)
    requires NaturalSpline(keys, values, p) && NaturalSpline(keys, values, q)
    ensures KnotCurvatures(keys, p) == KnotCurvatures(keys, q)
  {
    var v, w := KnotCurvatures(keys, p), KnotCurvatures(keys, q);
    if |p| == 1 {
      assert v == [0.0, 0.0] == w;
    } else {
      SplineSolvesSystem(keys, values, p);
      SplineSolvesSystem(keys, values, q);
      SameInterior(keys, values, v, w);
    }
  }

  lemma SameInterior(keys: seq<real>, values: seq<real>, v: seq<real>, w: seq<real>)
    requires |keys| == |values| == |v| == |w| >= 3 && Increasing(keys)
    requires Padded(v[1..|v| - 1], v) && Padded(w[1..|w| - 1], w)
    requires CurvatureSystem(keys, values).Solution(v[1..|v| - 1])
    requires CurvatureSystem(keys, values).Solution(w[1..|w| - 1])
    ensures v == w
  {
    CurvatureSystemSolvable(keys, values);
    Tridiagonal.SolutionUnique(CurvatureSystem(keys, values), v[1..|v| - 1], w[1..|w| - 1]);
    assert v == [0.0] + v[1..|v| - 1] + [0.0];
    assert w == [0.0] + w[1..|w| - 1] + [0.0];
  }
}
