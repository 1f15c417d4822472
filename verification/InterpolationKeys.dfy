/** Argument validation and segment search shared by the interpolators. Where the
    source ends the process on invalid arguments, the model returns a rejection. */
module InterpolationKeys {
  import opened RealArithmetic

  ghost predicate Increasing(x: seq<real>) {
    forall i, j | 0 <= i < j < |x| :: x[i] < x[j]
  }

  ghost predicate NotDecreasing(x: seq<real>) {
    forall i, j | 0 <= i < j < |x| :: x[i] <= x[j]
  }

  const EPSILON := 0.001

  /** isIncreasing: compares neighbours only. */
  method IsIncreasing(x: seq<real>) returns (r: bool)
    requires x != []
    ensures r <==> Increasing(x)
  {
    for i := 0 to |x| - 1
      invariant Increasing(x[..i + 1])
    {
      if x[i] >= x[i + 1] {
        return false;
      }
    }
    assert x[..|x|] == x;
    return true;
  }

  /** isNotDecreasing: compares neighbours only. */
  method IsNotDecreasing(x: seq<real>) returns (r: bool)
    requires x != []
    ensures r <==> NotDecreasing(x)
  {
    for i := 0 to |x| - 1
      invariant NotDecreasing(x[..i + 1])
    {
      if x[i] > x[i + 1] {
        return false;
      }
    }
    assert x[..|x|] == x;
    return true;
  }

  ghost predicate KeysAccepted(baseKeys: seq<real>, queryKeys: seq<real>) {
    && |baseKeys| >= 2 && |queryKeys| >= 1
    && Increasing(baseKeys) && NotDecreasing(queryKeys)
    && baseKeys[0] - EPSILON <= queryKeys[0]
    && queryKeys[|queryKeys| - 1] <= baseKeys[|baseKeys| - 1] + EPSILON
  }

  /** Only the first and the last query are moved into the range of the base keys. */
  function Cropped(baseKeys: seq<real>, queryKeys: seq<real>): (r: seq<real>)
    requires |baseKeys| >= 2 && |queryKeys| >= 1
    ensures |r| == |queryKeys|
  {
    var front := queryKeys[0 := Max(queryKeys[0], baseKeys[0])];
    var last := |front| - 1;
    front[last := Min(front[last], baseKeys[|baseKeys| - 1])]
  }

  method ValidateKeys(baseKeys: seq<real>, queryKeys: seq<real>) returns (ok: bool, validated: seq<real>)
    ensures ok <==> KeysAccepted(baseKeys, queryKeys)
    ensures ok ==> validated == Cropped(baseKeys, queryKeys)
  {
    if |baseKeys| < 2 || |queryKeys| == 0 {
      return false, [];
    }
    var increasing := IsIncreasing(baseKeys);
    var sorted := IsNotDecreasing(queryKeys);
    if !increasing || !sorted {
      return false, [];
    }
    if queryKeys[0] < baseKeys[0] - EPSILON
       || baseKeys[|baseKeys| - 1] + EPSILON < queryKeys[|queryKeys| - 1] {
      return false, [];
    }
    return true, Cropped(baseKeys, queryKeys);
  }

  predicate ValuesAccepted(baseKeys: seq<real>, baseValues: seq<real>) {
    |baseKeys| >= 2 && |baseKeys| == |baseValues|
  }

  /** `std::lower_bound`: the first position at or after i whose key is not below `key`. */
  function LowerBound(keys: seq<real>, key: real, i: nat := 0): (r: nat)
    requires i <= |keys|
    ensures i <= r <= |keys|
    ensures forall j | i <= j < r :: keys[j] < key
    ensures r < |keys| ==> key <= keys[r]
    decreases |keys| - i
  {
    if i == |keys| || key <= keys[i] then i else LowerBound(keys, key, i + 1)
  }

  /** The segment that `get_index` selects. */
  function Segment(keys: seq<real>, key: real): (i: nat)
    requires |keys| >= 2 && Increasing(keys)
    ensures i + 1 < |keys|
    ensures i > 0 ==> keys[i] < key
    ensures i + 2 < |keys| ==> key <= keys[i + 1]
    ensures key <= keys[|keys| - 1] ==> key <= keys[i + 1]
  {
    var position := LowerBound(keys, key) as int - 1;
    if position < 0 then 0 else if position > |keys| - 2 then |keys| - 2 else position
  }

  lemma Ordered(keys: seq<real>, i: int, j: int)
    requires Increasing(keys)
    ensures 0 <= i <= j < |keys| ==> keys[i] <= keys[j]
  {
  }

  /** Between increasing keys, the segment is the one whose ends enclose the key. */
  lemma SegmentUnique(keys: seq<real>, key: real, i: nat)
    requires |keys| >= 2 && Increasing(keys) && i + 1 < |keys|
    requires i > 0 ==> keys[i] < key
    requires i + 2 < |keys| ==> key <= keys[i + 1]
    ensures Segment(keys, key) == i
  {
    var s := Segment(keys, key);
    Ordered(keys, s + 1, i);
    Ordered(keys, i + 1, s);
  }

  /** A later query lies in the same segment or a later one. */
  lemma SegmentMonotone(keys: seq<real>, key: real, key': real)
    requires |keys| >= 2 && Increasing(keys) && key <= key'
    ensures Segment(keys, key) <= Segment(keys, key')
  {
    var s, s' := Segment(keys, key), Segment(keys, key');
    Ordered(keys, s' + 1, s);
  }

  /** Moves a cursor forward to the first segment whose upper key is not below `key`;
      it reaches the last key exactly when `key` lies above all keys. */
  method AdvanceCursor(keys: seq<real>, start: nat, key: real) returns (j: nat)
    requires start + 1 < |keys| && Increasing(keys)
    ensures start <= j < |keys|
    ensures j > start ==> keys[j] < key
    ensures j + 1 < |keys| ==> key <= keys[j + 1]
    ensures j + 1 == |keys| <==> key > keys[|keys| - 1]
  {
    j := start;
    while j + 1 < |keys| && keys[j + 1] < key
      invariant start <= j < |keys|
      invariant j > start ==> keys[j] < key
    {
      j := j + 1;
    }
  }
}
