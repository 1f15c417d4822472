/** The `SplineInterpolation` class: coefficients computed once, evaluated at sorted queries. */
module SplineInterpolation {
  import opened RealArithmetic
  import opened InterpolationKeys
  import opened Spline
  import Tridiagonal

  /** Position of `key` inside its segment. */
  function Offset(keys: seq<real>, key: real): real
    requires |keys| >= 2 && Increasing(keys)
  {
    key - keys[Segment(keys, key)]
  }

  class SplineInterpolation {
    var a: seq<real>
    var b: seq<real>
    var c: seq<real>
    var d: seq<real>
    var baseKeys: seq<real>

    ghost predicate Valid()
      reads this
    {
      |a| == |b| == |c| == |d| && |baseKeys| == |a| + 1 >= 2 && Increasing(baseKeys)
    }

    function Cubics(): (r: seq<Cubic>)
      reads this
      requires Valid()
    {
      seq(|a|, i requires 0 <= i < |a| reads this requires Valid() => Cubic(a[i], b[i], c[i], d[i]))
    }

    constructor ()
      ensures a == b == c == d == baseKeys == []
    {
      a, b, c, d, baseKeys := [], [], [], [], [];
    }

    /** The stored pieces are the one natural cubic spline through the base points. */
    method CalcSplineCoefficients(keys: seq<real>, values: seq<real>) returns (ok: bool)
      requires Increasing(keys)
      modifies this
      ensures ok <==> ValuesAccepted(keys, values)
      ensures ok ==> Valid() && baseKeys == keys
      ensures ok ==> forall p: seq<Cubic> :: NaturalSpline(keys, values, p) <==> p == Cubics()
      ensures !ok ==> unchanged(this)
    {
      if |keys| < 2 || |values| < 2 || |keys| != |values| {
        return false;
      }
      ok := true;
      var n := |keys|;
      if n == 2 {
        a, b := [0.0], [0.0];
        c, d := [(values[1] - values[0]) / (keys[1] - keys[0])], [values[0]];
        baseKeys := keys;
        PieceMeaning(Width(keys, 0), values[0], values[1], 0.0, 0.0);
        assert Cubics() == Pieces(keys, values, [0.0, 0.0]);
      } else {
        var v := KnotCurvatures(keys, values);
        StoreCoefficients(keys, values, v);
      }
      forall p: seq<Cubic> | NaturalSpline(keys, values, p)
        ensures p == Cubics()
      {
        NaturalSplineUnique(keys, values, p, Cubics());
      }
    }

    /** The curvatures at the knots: the tridiagonal solution between two zeros. */
    static method KnotCurvatures(keys: seq<real>, values: seq<real>) returns (v: seq<real>)
      requires |keys| == |values| >= 3 && Increasing(keys)
      ensures |v| == |keys| && NaturalSpline(keys, values, Pieces(keys, values, v))
    {
      CurvatureSystemSolvable(keys, values);
      var x := Tridiagonal.Solve(CurvatureSystem(keys, values));
      v := [0.0] + x[..] + [0.0];
      assert CurvatureSystem(keys, values).Solution(x[..]);
      CurvaturesGiveSpline(keys, values, v, x[..]);
    }

    method StoreCoefficients(keys: seq<real>, values: seq<real>, v: seq<real>)
      requires |keys| == |values| == |v| >= 2 && Increasing(keys)
      modifies this
      ensures Valid() && baseKeys == keys
      ensures Cubics() == Pieces(keys, values, v)
    {
      var n := |keys|;
      a := seq(n - 1, i requires 0 <= i < n - 1 => Quotient((v[i + 1] - v[i]) / 6.0, Width(keys, i)));
      b := seq(n - 1, i requires 0 <= i < n - 1 => v[i] / 2.0);
      c := seq(n - 1, i requires 0 <= i < n - 1 =>
               Quotient(values[i + 1] - values[i], Width(keys, i)) - Width(keys, i) * (2.0 * v[i] + v[i + 1]) / 6.0);
      d := values[..n - 1];
      baseKeys := keys;
      forall i | 0 <= i < n - 1
        ensures Cubics()[i] == Pieces(keys, values, v)[i]
      {
      }
    }

    method GetSplineInterpolatedValues(queries: seq<real>) returns (ok: bool, r: seq<real>)
      requires Valid()
      ensures ok <==> KeysAccepted(baseKeys, queries)
      ensures ok ==> |r| == |queries|
      ensures ok ==> forall k | 0 <= k < |queries| ::
                r[k] == Cubics()[Segment(baseKeys, queries[k])].Value(Offset(baseKeys, queries[k]))
    {
      var validated;
      ok, validated := ValidateKeys(baseKeys, queries);
      r := [];
      if ok {
        for k := 0 to |queries|
          invariant |r| == k
          invariant forall j | 0 <= j < k ::
                      r[j] == Cubics()[Segment(baseKeys, queries[j])].Value(Offset(baseKeys, queries[j]))
        {
          var idx := Segment(baseKeys, queries[k]);
          var dx := queries[k] - baseKeys[idx];
          r := r + [Cubic(a[idx], b[idx], c[idx], d[idx]).Value(dx)];
        }
      }
    }

    method GetSplineInterpolatedDiffValues(queries: seq<real>) returns (ok: bool, r: seq<real>)
      requires Valid()
      ensures ok <==> KeysAccepted(baseKeys, queries)
      ensures ok ==> |r| == |queries|
      ensures ok ==> forall k | 0 <= k < |queries| ::
                r[k] == Cubics()[Segment(baseKeys, queries[k])].Slope(Offset(baseKeys, queries[k]))
    {
      var validated;
      ok, validated := ValidateKeys(baseKeys, queries);
      r := [];
      if ok {
        for k := 0 to |queries|
          invariant |r| == k
          invariant forall j | 0 <= j < k ::
                      r[j] == Cubics()[Segment(baseKeys, queries[j])].Slope(Offset(baseKeys, queries[j]))
        {
          var idx := Segment(baseKeys, queries[k]);
          var dx := queries[k] - baseKeys[idx];
          r := r + [Cubic(a[idx], b[idx], c[idx], d[idx]).Slope(dx)];
        }
      }
    }

    method GetSplineInterpolatedQuadDiffValues(queries: seq<real>) returns (ok: bool, r: seq<real>)
      requires Valid()
      ensures ok <==> KeysAccepted(baseKeys, queries)
      ensures ok ==> |r| == |queries|
      ensures ok ==> forall k | 0 <= k < |queries| ::
                r[k] == Cubics()[Segment(baseKeys, queries[k])].Curvature(Offset(baseKeys, queries[k]))
    {
      var validated;
      ok, validated := ValidateKeys(baseKeys, queries);
      r := [];
      if ok {
        for k := 0 to |queries|
          invariant |r| == k
          invariant forall j | 0 <= j < k ::
                      r[j] == Cubics()[Segment(baseKeys, queries[j])].Curvature(Offset(baseKeys, queries[j]))
        {
          var idx := Segment(baseKeys, queries[k]);
          var dx := queries[k] - baseKeys[idx];
          r := r + [Cubic(a[idx], b[idx], c[idx], d[idx]).Curvature(dx)];
        }
      }
    }
  }

  /** Whichever side of a knot the search picks, value, slope and curvature are those of
      every piece whose closed segment holds the key. */
  lemma EvaluationWellDefined(keys: seq<real>, values: seq<real>, pieces: seq<Cubic>, key: real, i: nat)
    requires NaturalSpline(keys, values, pieces) && Increasing(keys)
    requires i < |pieces| && keys[i] <= key <= keys[i + 1]
    ensures var s := Segment(keys, key);
            && pieces[s].Value(Offset(keys, key)) == pieces[i].Value(key - keys[i])
            && pieces[s].Slope(Offset(keys, key)) == pieces[i].Slope(key - keys[i])
            && pieces[s].Curvature(Offset(keys, key)) == pieces[i].Curvature(key - keys[i])
  {
    if i == 0 || keys[i] < key {
      SegmentUnique(keys, key, i);
    } else {
      SegmentUnique(keys, key, i - 1);
      assert Smooth(keys, pieces, i - 1);
      assert Interpolates(keys, values, pieces, i - 1) && Interpolates(keys, values, pieces, i);
      assert Offset(keys, key) == Width(keys, i - 1);
    }
  }

  /** Evaluating at a base key returns its base value. */
  lemma EvaluationInterpolates(keys: seq<real>, values: seq<real>, pieces: seq<Cubic>, i: nat)
    requires NaturalSpline(keys, values, pieces) && Increasing(keys)
    requires i < |keys|
    ensures pieces[Segment(keys, keys[i])].Value(Offset(keys, keys[i])) == values[i]
  {
    var piece := if i < |pieces| then i else i - 1;
    assert Interpolates(keys, values, pieces, piece);
    EvaluationWellDefined(keys, values, pieces, keys[i], piece);
  }
}
