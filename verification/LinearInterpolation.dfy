/** The vector `lerp` of linear_interpolation.cpp with its moving cursor. */
module LinearInterpolation {
  import opened RealArithmetic
  import opened InterpolationKeys

  /** `Rejected` ends the process, `OutOfRange` is the exception of `vector::at`. */
  datatype Outcome = Rejected | OutOfRange | Interpolated(values: seq<real>)

  function Lerp(source: real, target: real, ratio: real): real {
    source + Mul(target - source, ratio)
  }

  /** Interpolation on segment s. */
  function OnSegment(keys: seq<real>, values: seq<real>, s: nat, key: real): real
    requires |keys| == |values| && s + 1 < |keys| && keys[s] < keys[s + 1]
  {
    Lerp(values[s], values[s + 1], Quotient(key - keys[s], keys[s + 1] - keys[s]))
  }

  function At(keys: seq<real>, values: seq<real>, key: real): real
    requires |keys| == |values| >= 2 && Increasing(keys)
  {
    OnSegment(keys, values, Segment(keys, key), key)
  }

  function Last(s: seq<real>): real
    requires s != []
  {
    s[|s| - 1]
  }

  ghost predicate Accepted(keys: seq<real>, values: seq<real>, queries: seq<real>) {
    KeysAccepted(keys, queries) && ValuesAccepted(keys, values)
  }

  /** A query other than the last one lies above the base keys. Such a query passes the
      validation when it is within its tolerance, but only the last query is cropped. */
  ghost predicate Overruns(keys: seq<real>, queries: seq<real>)
    requires keys != []
  {
    exists k :: 0 <= k < |queries| - 1 && queries[k] > Last(keys)
  }

  /** The cursor finds the segment of the binary search, and runs past the base keys
      exactly when a query before the last one lies above them. */
  method LerpAll(keys: seq<real>, values: seq<real>, queries: seq<real>) returns (r: Outcome)
    ensures r.Rejected? <==> !Accepted(keys, values, queries)
    ensures r.OutOfRange? <==> Accepted(keys, values, queries) && Overruns(keys, queries)
    ensures r.Interpolated? ==> |r.values| == |queries| && forall k | 0 <= k < |queries| ::
              r.values[k] == At(keys, values, Cropped(keys, queries)[k])
  {
    var ok, validated := ValidateKeys(keys, queries);
    if !ok || |keys| != |values| {
      return Rejected;
    }
    var results: seq<real> := [];
    var keyIndex := 0;
    for k := 0 to |validated|
      invariant keyIndex + 1 < |keys| && |results| == k
      invariant CursorAfter(keys, validated, k, keyIndex)
      invariant forall j | 0 <= j < k :: results[j] == At(keys, values, validated[j])
    {
      ghost var start := keyIndex;
      keyIndex := AdvanceCursor(keys, keyIndex, validated[k]);
      if keyIndex + 1 == |keys| {
        CroppedOrder(keys, queries, k);
        return OutOfRange;
      }
      CursorStep(keys, queries, k, start, keyIndex);
      results := results + [OnSegment(keys, values, keyIndex, validated[k])];
    }
    NoOverrun(keys, queries);
    return Interpolated(results);
  }

  /** After k queries, none of them above the base keys, the cursor is in the segment of the last one. */
  ghost predicate CursorAfter(keys: seq<real>, validated: seq<real>, k: nat, keyIndex: nat)
    requires |keys| >= 2 && Increasing(keys) && k <= |validated|
  {
    && (if k == 0 then keyIndex == 0 else keyIndex == Segment(keys, validated[k - 1]))
    && forall j | 0 <= j < k :: validated[j] <= Last(keys)
  }

  lemma CursorStep(keys: seq<real>, queries: seq<real>, k: nat, start: nat, j: nat)
    requires KeysAccepted(keys, queries) && k < |queries|
    requires CursorAfter(keys, Cropped(keys, queries), k, start)
    requires start <= j && j + 1 < |keys|
    requires j > start ==> keys[j] < Cropped(keys, queries)[k]
    requires Cropped(keys, queries)[k] <= keys[j + 1]
    ensures CursorAfter(keys, Cropped(keys, queries), k + 1, j)
    ensures j == Segment(keys, Cropped(keys, queries)[k])
  {
    var v := Cropped(keys, queries);
    CroppedOrder(keys, queries, k);
    if start > 0 {
      assert keys[start] < v[k - 1];
    }
    SegmentUnique(keys, v[k], j);
    Ordered(keys, j + 1, |keys| - 1);
  }

  lemma NoOverrun(keys: seq<real>, queries: seq<real>)
    requires KeysAccepted(keys, queries)
    requires forall j | 0 <= j < |queries| :: Cropped(keys, queries)[j] <= Last(keys)
    ensures !Overruns(keys, queries)
  {
    forall k | 0 <= k < |queries| - 1
      ensures queries[k] <= Last(keys)
    {
      CroppedOrder(keys, queries, k);
    }
  }

  /** Two queries half a thousandth past the end: accepted, and the first of them overruns. */
  lemma InnerQueryOverruns()
    ensures var keys, queries := [0.0, 1.0], [1.0005, 1.0005];
            Accepted(keys, [0.0, 1.0], queries) && Overruns(keys, queries)
  {
    var keys, queries := [0.0, 1.0], [1.0005, 1.0005];
    assert queries[0] > Last(keys);
  }

  /** Cropping keeps the order of the queries, except below the first base key. */
  lemma CroppedOrder(keys: seq<real>, queries: seq<real>, k: nat)
    requires KeysAccepted(keys, queries) && k < |queries|
    ensures var v := Cropped(keys, queries);
            && (k > 0 && v[k - 1] <= Last(keys) ==> v[k - 1] <= v[k] || v[k - 1] <= keys[0])
            && (v[k] > Last(keys) <==> k < |queries| - 1 && queries[k] > Last(keys))
  {
  }

  // ----- what the interpolation means -----

  lemma RatioWithin(x: real, w: real)
    requires 0.0 <= x <= w && w > 0.0
    ensures 0.0 <= Quotient(x, w) <= 1.0
    ensures x == w ==> Quotient(x, w) == 1.0
  {
    QuotientBetween(x, w, 0.0, 1.0);
    QuotientOfProduct(1.0, w);
  }

  /** Inside its segment the result lies between the two base values. */
  lemma OnSegmentBetween(keys: seq<real>, values: seq<real>, s: nat, key: real)
    requires |keys| == |values| && s + 1 < |keys| && keys[s] < keys[s + 1]
    requires keys[s] <= key <= keys[s + 1] && values[s] <= values[s + 1]
    ensures values[s] <= OnSegment(keys, values, s, key) <= values[s + 1]
    ensures key == keys[s] ==> OnSegment(keys, values, s, key) == values[s]
    ensures key == keys[s + 1] ==> OnSegment(keys, values, s, key) == values[s + 1]
  {
    var ratio := Quotient(key - keys[s], keys[s + 1] - keys[s]);
    RatioWithin(key - keys[s], keys[s + 1] - keys[s]);
    ProductMonotone(values[s + 1] - values[s], 0.0, ratio);
    ProductMonotone(values[s + 1] - values[s], ratio, 1.0);
  }

  lemma OnSegmentEnds(keys: seq<real>, values: seq<real>, s: nat)
    requires |keys| == |values| && s + 1 < |keys| && keys[s] < keys[s + 1]
    ensures OnSegment(keys, values, s, keys[s]) == values[s]
    ensures OnSegment(keys, values, s, keys[s + 1]) == values[s + 1]
  {
    RatioWithin(keys[s + 1] - keys[s], keys[s + 1] - keys[s]);
  }

  /** The interpolation passes through every base point. */
  lemma InterpolatesBasePoints(keys: seq<real>, values: seq<real>, i: nat)
    requires |keys| == |values| >= 2 && Increasing(keys) && i < |keys|
    ensures At(keys, values, keys[i]) == values[i]
  {
    var s := if i == 0 then 0 else i - 1;
    SegmentUnique(keys, keys[i], s);
    OnSegmentEnds(keys, values, s);
  }

  /** Nondecreasing data give a nondecreasing interpolation over the whole range. */
  lemma Monotone(keys: seq<real>, values: seq<real>, key: real, key': real)
    requires |keys| == |values| >= 2 && Increasing(keys) && NotDecreasing(values)
    requires keys[0] <= key <= key' <= Last(keys)
    ensures At(keys, values, key) <= At(keys, values, key')
  {
    var s, s' := Segment(keys, key), Segment(keys, key');
    SegmentMonotone(keys, key, key');
    if s == s' {
      QuotientOrder(key - keys[s], key' - keys[s], keys[s + 1] - keys[s]);
      ProductMonotone(values[s + 1] - values[s], Quotient(key - keys[s], keys[s + 1] - keys[s]),
                      Quotient(key' - keys[s], keys[s + 1] - keys[s]));
    } else {
      OnSegmentBetween(keys, values, s, key);
      OnSegmentBetween(keys, values, s', key');
      assert values[s + 1] <= values[s'];
    }
  }
}
