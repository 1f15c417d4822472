/** lowpass_filter.cpp: the moving average with a window that shrinks symmetrically at the ends,
    and the second-order Butterworth filter. Its tangent and root are inputs. */
module LowpassFilter {
  import opened RealArithmetic

  // ----- MoveAverageFilter -----

  /** Half width of the window at i: narrower near an end, so that it stays centred. */
  function HalfWidth(i: nat, num: nat, n: nat): (w: nat)
    requires i < n
    ensures w <= num && w <= i && i + w < n
  {
    if i - num < 0 || i + num > n - 1 then (if i < n - i - 1 then i else n - i - 1) else num
  }

  function RangeSum(u: seq<real>, lo: nat, hi: nat): real
    requires lo <= hi <= |u|
    decreases hi - lo
  {
    if lo == hi then 0.0 else RangeSum(u, lo, hi - 1) + u[hi - 1]
  }

  lemma {:induction false} RangeSumFirst(u: seq<real>, lo: nat, hi: nat)
    requires lo < hi <= |u|
    ensures RangeSum(u, lo, hi) == u[lo] + RangeSum(u, lo + 1, hi)
    decreases hi - lo
  {
    if lo + 1 < hi {
      RangeSumFirst(u, lo, hi - 1);
    } else {
      assert RangeSum(u, lo, lo) == 0.0 == RangeSum(u, hi, hi);
    }
  }

  function Averaged(u: seq<real>, i: nat, num: nat): real
    requires i < |u|
  {
    var w := HalfWidth(i, num, |u|);
    Quotient(RangeSum(u, i - w, i + w + 1), (2 * w + 1) as real)
  }

  /** Refuses a vector shorter than the window, and otherwise replaces every element by the mean of
      its window in the unfiltered vector. */
  method FiltVector(num: nat, u: array<real>) returns (ok: bool)
    modifies u
    ensures ok <==> u.Length >= num
    ensures !ok ==> u[..] == old(u[..])
    ensures ok ==> forall i | 0 <= i < u.Length :: u[i] == Averaged(old(u[..]), i, num)
  {
    if u.Length < num {
      return false;
    }
    var before := u[..];
    var filtered := new real[u.Length](i => 0.0);
    for i := 0 to u.Length
      invariant u[..] == before
      invariant forall k | 0 <= k < i :: filtered[k] == Averaged(before, k, num)
    {
      var numTmp := if i - num < 0 || i + num > u.Length - 1 then (if i < u.Length - i - 1 then i else u.Length - i - 1)
                    else num;
      var tmp, count := 0.0, 0;
      for j := -numTmp to numTmp + 1
        invariant count == j + numTmp
        invariant tmp == RangeSum(before, i - numTmp, i + j)
      {
        var index := i + j;
        if index >= 0 && index < u.Length {
          tmp := tmp + u[index];
          count := count + 1;
        }
      }
      filtered[i] := Quotient(tmp, count as real);
    }
    forall i | 0 <= i < u.Length {
      u[i] := filtered[i];
    }
    return true;
  }

  /** What lies k before i and k after it adds up to twice the middle. */
  predicate Balanced(u: seq<real>, i: nat, k: nat)
    requires k <= i && i + k < |u|
  {
    u[i - k] + u[i + k] == 2.0 * u[i]
  }

  lemma {:induction false} BalancedSum(u: seq<real>, i: nat, w: nat)
    requires w <= i && i + w < |u| && forall k | 0 <= k <= w :: Balanced(u, i, k)
    ensures RangeSum(u, i - w, i + w + 1) == Mul(u[i], (2 * w + 1) as real)
  {
    if w > 0 {
      var lo, hi := i - w, i + w;
      BalancedSum(u, i, w - 1);
      RangeSumFirst(u, lo, hi + 1);
      assert Balanced(u, i, w);
      OneMorePair(u[i], w);
    } else {
      assert RangeSum(u, i, i) == 0.0;
    }
  }

  lemma OneMorePair(x: real, w: nat)
    requires w > 0
    ensures Mul(x, (2 * w + 1) as real) == Mul(x, (2 * (w - 1) + 1) as real) + 2.0 * x
  {
  }

  lemma OppositeSteps(step: real, i: nat, k: nat)
    requires k <= i
    ensures Mul(step, (i - k) as real) + Mul(step, (i + k) as real) == 2.0 * Mul(step, i as real)
  {
    assert (i - k) as real == i as real - k as real && (i + k) as real == i as real + k as real;
    TwoSides(step, i as real, k as real);
  }

  lemma TwoSides(step: real, x: real, y: real)
    ensures Mul(step, x - y) + Mul(step, x + y) == 2.0 * Mul(step, x)
  {
    assert step * (x - y) == step * x - step * y && step * (x + y) == step * x + step * y;
  }

  /** A ramp passes through unchanged, also at both ends: the shrinking window adds no lag and no bias. */
  lemma RampIsKept(u: seq<real>, start: real, step: real, num: nat, i: nat)
    requires i < |u| && forall k | 0 <= k < |u| :: u[k] == start + Mul(step, k as real)
    ensures Averaged(u, i, num) == u[i]
  {
    var w := HalfWidth(i, num, |u|);
    forall k | 0 <= k <= w
      ensures Balanced(u, i, k)
    {
      var before, after := i - k, i + k;
      assert u[before] == start + Mul(step, before as real) && u[after] == start + Mul(step, after as real);
      OppositeSteps(step, i, k);
    }
    BalancedSum(u, i, w);
    QuotientOfProduct(u[i], (2 * w + 1) as real);
  }

  lemma {:induction false} RangeSumBounded(u: seq<real>, lo: nat, hi: nat, low: real, high: real)
    requires lo <= hi <= |u| && forall k | lo <= k < hi :: low <= u[k] <= high
    ensures Mul(low, (hi - lo) as real) <= RangeSum(u, lo, hi) <= Mul(high, (hi - lo) as real)
    decreases hi - lo
  {
    if lo < hi {
      RangeSumBounded(u, lo, hi - 1, low, high);
      assert Mul(low, (hi - lo) as real) == Mul(low, (hi - 1 - lo) as real) + low;
      assert Mul(high, (hi - lo) as real) == Mul(high, (hi - 1 - lo) as real) + high;
    } else {
      assert Mul(low, 0.0) == 0.0 && Mul(high, 0.0) == 0.0;
    }
  }

  /** The filter never leaves the range of its window. */
  lemma AverageIsBounded(u: seq<real>, i: nat, num: nat, low: real, high: real)
    requires i < |u|
    requires var w := HalfWidth(i, num, |u|); forall k | i - w <= k <= i + w :: low <= u[k] <= high
    ensures low <= Averaged(u, i, num) <= high
  {
    var w := HalfWidth(i, num, |u|);
    RangeSumBounded(u, i - w, i + w + 1, low, high);
    QuotientBetween(RangeSum(u, i - w, i + w + 1), (2 * w + 1) as real, low, high);
  }

  // ----- Butterworth2dFilter -----

  datatype Coefficients = Coefficients(b0: real, b1: real, b2: real, a1: real, a2: real)

  /** `initialize`, for xi = 1 / tan(..) and q = sqrt(2). */
  function Butterworth(xi: real, q: real): Coefficients
    requires 1.0 + Mul(q, xi) + Square(xi) != 0.0
  {
    var b0 := Quotient(1.0, 1.0 + Mul(q, xi) + Square(xi));
    Coefficients(b0, 2.0 * b0, b0, 2.0 * Mul(Square(xi) - 1.0, b0), -Mul(1.0 - Mul(q, xi) + Square(xi), b0))
  }

  function Gain(c: Coefficients): real {
    c.b0 + c.b1 + c.b2 + c.a1 + c.a2
  }

  /** A constant input is passed on with gain one, and every sample counts. */
  lemma UnitGain(xi: real, q: real)
    requires 1.0 + Mul(q, xi) + Square(xi) != 0.0
    ensures Gain(Butterworth(xi, q)) == 1.0 && Butterworth(xi, q).b0 != 0.0
  {
    var x2, qx := Square(xi), Mul(q, xi);
    var b0 := Quotient(1.0, 1.0 + qx + x2);
    QuotientTimes(1.0, 1.0 + qx + x2);
    assert Mul(0.0, 1.0 + qx + x2) == 0.0;
    assert 4.0 * b0 + 2.0 * Mul(x2 - 1.0, b0) - Mul(1.0 - qx + x2, b0) == Mul(b0, 1.0 + qx + x2);
  }

  /** The difference equation, on the new sample, the two before it and the two last answers. */
  function Next(c: Coefficients, u0: real, u1: real, u2: real, y1: real, y2: real): real {
    Mul(c.b2, u2) + Mul(c.b1, u1) + Mul(c.b0, u0) + Mul(c.a2, y2) + Mul(c.a1, y1)
  }

  class Butterworth2dFilter {
    const c: Coefficients
    var y1: real
    var y2: real
    var u1: real
    var u2: real

    constructor (c: Coefficients)
      ensures this.c == c && y1 == y2 == u1 == u2 == 0.0
    {
      this.c := c;
      y1, y2, u1, u2 := 0.0, 0.0, 0.0, 0.0;
    }

    /** One step; the stored samples shift by one. */
    method Filter(u0: real) returns (y0: real)
      modifies this
      ensures y0 == Next(c, u0, old(u1), old(u2), old(y1), old(y2))
      ensures y1 == y0 && y2 == old(y1) && u1 == u0 && u2 == old(u1)
    {
      y0 := Next(c, u0, u1, u2, y1, y2);
      y2 := y1;
      y1 := y0;
      u2 := u1;
      u1 := u0;
    }
  }

  /** Sample i of a signal that was constant before it began. */
  function Sample(s: seq<real>, first: real, i: int): real
    requires i < |s|
  {
    if i < 0 then first else s[i]
  }

  /** The answers obey the difference equation, with the first sample as the whole past. */
  predicate FilteredAt(c: Coefficients, t: seq<real>, u: seq<real>, i: nat)
    requires i < |t| && i < |u|
  {
    var x := t[0];
    u[i] == Next(c, t[i], Sample(t, x, i - 1), Sample(t, x, i - 2), Sample(u, x, i - 1), Sample(u, x, i - 2))
  }

  /** The first n answers. */
  function Filtered(c: Coefficients, t: seq<real>, n: nat): (u: seq<real>)
    requires t != [] && n <= |t|
    ensures |u| == n && forall i | 0 <= i < n :: FilteredAt(c, t, u, i)
  {
    if n == 0 then []
    else
      var before := Filtered(c, t, n - 1);
      var x := t[0];
      var u := before + [Next(c, t[n - 1], Sample(t, x, n - 2), Sample(t, x, n - 3),
                              Sample(before, x, n - 2), Sample(before, x, n - 3))];
      assert forall i | 0 <= i < n - 1 :: FilteredAt(c, t, before, i) ==> FilteredAt(c, t, u, i);
      u
  }

  /** `filt_vector` of the Butterworth filter. */
  method FiltSignal(c: Coefficients, t: seq<real>) returns (u: seq<real>)
    requires t != []
    ensures u == Filtered(c, t, |t|)
  {
    var x := t[0];
    var y1, y2, u2, u1 := x, x, x, x;
    u := [];
    for i := 0 to |t|
      invariant u == Filtered(c, t, i)
      invariant u1 == Sample(t, x, i - 1) && u2 == Sample(t, x, i - 2)
      invariant y1 == Sample(u, x, i - 1) && y2 == Sample(u, x, i - 2)
    {
      var u0 := t[i];
      var y0 := Next(c, u0, u1, u2, y1, y2);
      y2 := y1;
      y1 := y0;
      u2 := u1;
      u1 := u0;
      u := u + [y0];
    }
  }

  lemma Settled(c: Coefficients, x: real)
    ensures Next(c, x, x, x, x, x) == Mul(Gain(c), x)
  {
  }

  /** Started settled at the first sample, a filter of unit gain keeps a constant signal from the
      first answer on. */
  lemma {:induction false} ConstantPasses(c: Coefficients, t: seq<real>, i: nat)
    requires Gain(c) == 1.0 && i < |t| && forall k | 0 <= k < |t| :: t[k] == t[0]
    ensures Filtered(c, t, |t|)[i] == t[0]
  {
    var u := Filtered(c, t, |t|);
    if i > 0 {
      ConstantPasses(c, t, i - 1);
    }
    if i > 1 {
      ConstantPasses(c, t, i - 2);
    }
    assert FilteredAt(c, t, u, i);
    Settled(c, t[0]);
    assert Mul(1.0, t[0]) == t[0];
  }

  /** The filter loses nothing: signals of the same length with the same answers are the same. */
  lemma {:induction false} FilterIsInjective(c: Coefficients, s: seq<real>, t: seq<real>, i: nat)
    requires Gain(c) == 1.0 && c.b0 != 0.0 && i < |s| == |t|
    requires Filtered(c, s, |s|) == Filtered(c, t, |t|)
    ensures s[i] == t[i]
  {
    var u := Filtered(c, s, |s|);
    assert FilteredAt(c, s, u, i) && FilteredAt(c, t, u, i);
    if i == 0 {
      Settled(c, s[0]);
      Settled(c, t[0]);
      assert Mul(1.0, s[0]) == s[0] && Mul(1.0, t[0]) == t[0];
    } else {
      FilterIsInjective(c, s, t, 0);
      FilterIsInjective(c, s, t, i - 1);
      if i > 1 {
        FilterIsInjective(c, s, t, i - 2);
      }
      QuotientOfProduct(s[i], c.b0);
      QuotientOfProduct(t[i], c.b0);
      assert Mul(c.b0, s[i]) == Mul(s[i], c.b0) && Mul(c.b0, t[i]) == Mul(t[i], c.b0);
    }
  }

  // ----- forward and backward -----

  function Reversed(s: seq<real>): (r: seq<real>) {
    seq(|s|, i requires 0 <= i < |s| => s[|s| - 1 - i])
  }

  function Merged(s: seq<real>, t: seq<real>): (u: seq<real>)
    requires |s| == |t|
  {
    seq(|s|, i requires 0 <= i < |s| => (s[i] + t[i]) * 0.5)
  }

  /** What filtering in both directions means: the backward pass runs over the reversed signal. */
  function ForwardAndBackward(c: Coefficients, t: seq<real>): seq<real>
    requires t != []
  {
    Merged(Filtered(c, t, |t|), Reversed(Filtered(c, Reversed(t), |t|)))
  }

  /** `filtfilt_vector`: the second pass reads the forward signal again, and only its answers are reversed. */
  method FiltFiltSignal(c: Coefficients, t: seq<real>) returns (u: seq<real>)
    requires t != []
    ensures u == Merged(Filtered(c, t, |t|), Reversed(Filtered(c, t, |t|)))
  {
    var forward := FiltSignal(c, t);
    var backward := FiltSignal(c, t);
    backward := Reversed(backward);
    u := [];
    for i := 0 to |t|
      invariant |u| == i
      invariant forall k | 0 <= k < i :: u[k] == (forward[k] + backward[k]) * 0.5
    {
      u := u + [(forward[i] + backward[i]) * 0.5];
    }
  }

  /** So whatever the signal, its answer reads the same backwards ... */
  lemma AnswerIsMirrored(c: Coefficients, t: seq<real>)
    requires t != []
    ensures var u := Merged(Filtered(c, t, |t|), Reversed(Filtered(c, t, |t|))); Reversed(u) == u
  {
    var f := Filtered(c, t, |t|);
    var u := Merged(f, Reversed(f));
    forall i | 0 <= i < |u|
      ensures Reversed(u)[i] == u[i]
    {
      assert u[|u| - 1 - i] == (f[|u| - 1 - i] + f[i]) * 0.5;
    }
  }

  lemma SameMerge(f: seq<real>, r: seq<real>)
    requires |f| == |r| && Merged(f, Reversed(f)) == Merged(f, Reversed(r))
    ensures f == r
  {
    forall k | 0 <= k < |f|
      ensures f[k] == r[k]
    {
      var i := |f| - 1 - k;
      assert Merged(f, Reversed(f))[i] == Merged(f, Reversed(r))[i];
      assert Reversed(f)[i] == f[k] && Reversed(r)[i] == r[k];
    }
  }

  /** ... and it is the forward and backward filter exactly for signals that read the same backwards. */
  lemma ForwardAndBackwardIff(c: Coefficients, t: seq<real>)
    requires Gain(c) == 1.0 && c.b0 != 0.0 && t != []
    ensures Merged(Filtered(c, t, |t|), Reversed(Filtered(c, t, |t|))) == ForwardAndBackward(c, t) <==> Reversed(t) == t
  {
    if Merged(Filtered(c, t, |t|), Reversed(Filtered(c, t, |t|))) == ForwardAndBackward(c, t) {
      SameMerge(Filtered(c, t, |t|), Filtered(c, Reversed(t), |t|));
      forall i | 0 <= i < |t|
        ensures Reversed(t)[i] == t[i]
      {
        FilterIsInjective(c, t, Reversed(t), i);
      }
    }
  }

  /** A step is such a signal: both passes see it rise, and the answer does not. */
  lemma StepIsMirrored(xi: real, q: real)
    requires 1.0 + Mul(q, xi) + Square(xi) != 0.0
    ensures var c, t := Butterworth(xi, q), [0.0, 1.0];
            Merged(Filtered(c, t, |t|), Reversed(Filtered(c, t, |t|))) != ForwardAndBackward(c, t)
  {
    UnitGain(xi, q);
    ForwardAndBackwardIff(Butterworth(xi, q), [0.0, 1.0]);
    assert Reversed([0.0, 1.0])[0] == 1.0;
  }
}
