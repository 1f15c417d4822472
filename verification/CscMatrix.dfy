/** csc_matrix_conv.cpp: compressed sparse columns of a dense matrix, in full and upper
    triangular (trapezoidal) form. */
module CscMatrix {
  import opened Options
  import opened RealArithmetic

  const TINY := 0.000000001

  datatype Csc = Csc(vals: seq<real>, rowIdxs: seq<nat>, colIdxs: seq<nat>)

  /** An entry too small to be stored counts as zero. */
  function Cleaned(x: real): real {
    if Abs(x) < TINY then 0.0 else x
  }

  // ----- what the arrays mean -----

  /** The value stored for row i among the elements lo .. hi. */
  function Find(vals: seq<real>, rowIdxs: seq<nat>, lo: nat, hi: nat, i: nat): real
    requires lo <= hi <= |vals| == |rowIdxs|
    decreases hi - lo
  {
    if lo == hi then 0.0 else if rowIdxs[lo] == i then vals[lo] else Find(vals, rowIdxs, lo + 1, hi, i)
  }

  /** Offsets start at zero, do not decrease, and end at the element count. */
  ghost predicate Offsets(csc: Csc, cols: nat) {
    && |csc.vals| == |csc.rowIdxs| && |csc.colIdxs| == cols + 1
    && csc.colIdxs[0] == 0 && csc.colIdxs[cols] == |csc.vals|
    && (forall a, b | 0 <= a <= b <= cols :: csc.colIdxs[a] <= csc.colIdxs[b])
  }

  /** Row indices strictly increase among the elements lo .. hi and stay below `rows`; no stored
      value is tiny. */
  ghost predicate ColumnSorted(vals: seq<real>, rowIdxs: seq<nat>, lo: nat, hi: nat, rows: nat)
    requires lo <= hi <= |vals| == |rowIdxs|
  {
    && (forall a, b | lo <= a < b < hi :: rowIdxs[a] < rowIdxs[b])
    && (forall a | lo <= a < hi :: rowIdxs[a] < rows && Abs(vals[a]) >= TINY)
  }

  ghost predicate WellFormed(csc: Csc, rows: nat, cols: nat) {
    && Offsets(csc, cols)
    && forall j, l | 0 <= j && l == j + 1 <= cols ::
         ColumnSorted(csc.vals, csc.rowIdxs, csc.colIdxs[j], csc.colIdxs[l], rows)
  }

  /** The dense entry the arrays stand for. */
  ghost function Entry(csc: Csc, cols: nat, i: nat, j: nat): real
    requires Offsets(csc, cols) && j < cols
  {
    Find(csc.vals, csc.rowIdxs, csc.colIdxs[j], csc.colIdxs[j + 1], i)
  }

  // ----- appending -----

  /** Elements before `hi` are found as before when more are appended. */
  lemma {:induction false} FindStable(vals: seq<real>, rowIdxs: seq<nat>, vals': seq<real>, rowIdxs': seq<nat>,
                                      lo: nat, hi: nat, i: nat)
    requires lo <= hi <= |vals| == |rowIdxs| && vals <= vals' && rowIdxs <= rowIdxs' && |vals'| == |rowIdxs'|
    ensures Find(vals', rowIdxs', lo, hi, i) == Find(vals, rowIdxs, lo, hi, i)
    decreases hi - lo
  {
    if lo < hi {
      FindStable(vals, rowIdxs, vals', rowIdxs', lo + 1, hi, i);
    }
  }

  /** One more element is found exactly for its own row, when no earlier one has it. */
  lemma {:induction false} FindAppended(vals: seq<real>, rowIdxs: seq<nat>, lo: nat, value: real, row: nat, i: nat)
    requires lo <= |vals| == |rowIdxs| && forall a | lo <= a < |rowIdxs| :: rowIdxs[a] != row
    ensures Find(vals + [value], rowIdxs + [row], lo, |vals| + 1, i)
         == if i == row then value else Find(vals, rowIdxs, lo, |vals|, i)
    decreases |vals| - lo
  {
    if lo < |vals| {
      FindAppended(vals, rowIdxs, lo + 1, value, row, i);
    } else {
      assert Find(vals + [value], rowIdxs + [row], lo + 1, |vals| + 1, i) == 0.0;
    }
  }

  lemma {:induction false} FindAbsent(vals: seq<real>, rowIdxs: seq<nat>, lo: nat, hi: nat, i: nat)
    requires lo <= hi <= |vals| == |rowIdxs| && forall a | lo <= a < hi :: rowIdxs[a] != i
    ensures Find(vals, rowIdxs, lo, hi, i) == 0.0
    decreases hi - lo
  {
    if lo < hi {
      FindAbsent(vals, rowIdxs, lo + 1, hi, i);
    }
  }

  /** The elements from `lo` on are the column's first `height` entries. */
  ghost predicate ColumnHeld(vals: seq<real>, rowIdxs: seq<nat>, lo: nat, mat: array2<real>, j: nat, height: nat)
    reads mat
    requires lo <= |vals| == |rowIdxs| && j < mat.Length1 && height <= mat.Length0
  {
    && ColumnSorted(vals, rowIdxs, lo, |vals|, height)
    && forall i | 0 <= i < height :: Find(vals, rowIdxs, lo, |vals|, i) == Cleaned(mat[i, j])
  }

  /** The row loop of both conversions. */
  method AppendColumn(mat: array2<real>, j: nat, height: nat, vals0: seq<real>, rowIdxs0: seq<nat>)
    returns (vals: seq<real>, rowIdxs: seq<nat>)
    requires j < mat.Length1 && height <= mat.Length0 && |vals0| == |rowIdxs0|
    ensures |vals| == |rowIdxs| && vals0 <= vals && rowIdxs0 <= rowIdxs
    ensures ColumnHeld(vals, rowIdxs, |vals0|, mat, j, height)
  {
    vals, rowIdxs := vals0, rowIdxs0;
    for i := 0 to height
      invariant |vals| == |rowIdxs| && vals0 <= vals && rowIdxs0 <= rowIdxs
      invariant ColumnHeld(vals, rowIdxs, |vals0|, mat, j, i)
    {
      var val := mat[i, j];
      if Abs(val) < TINY {
        FindAbsent(vals, rowIdxs, |vals0|, |vals|, i);
        continue;
      }
      forall r | 0 <= r <= i
        ensures Find(vals + [val], rowIdxs + [i], |vals0|, |vals| + 1, r) == Cleaned(mat[r, j])
      {
        FindAppended(vals, rowIdxs, |vals0|, val, i, r);
      }
      vals := vals + [val];
      rowIdxs := rowIdxs + [i];
    }
  }

  // ----- conversions -----

  /** How many rows of column j a conversion visits. */
  function Height(rows: nat, trapezoidal: bool, j: nat): nat {
    if trapezoidal && j < rows then j + 1 else rows
  }

  /** The first `done` columns are stored. */
  ghost predicate ColumnsHeld(csc: Csc, mat: array2<real>, trapezoidal: bool, done: nat)
    reads mat
  {
    && done <= mat.Length1 && Offsets(csc, done)
    && forall j, l | 0 <= j && l == j + 1 <= done ::
         && ColumnSorted(csc.vals, csc.rowIdxs, csc.colIdxs[j], csc.colIdxs[l], Height(mat.Length0, trapezoidal, j))
         && forall i | 0 <= i < Height(mat.Length0, trapezoidal, j) ::
              Find(csc.vals, csc.rowIdxs, csc.colIdxs[j], csc.colIdxs[l], i) == Cleaned(mat[i, j])
  }

  lemma ColumnAdded(csc: Csc, mat: array2<real>, trapezoidal: bool, done: nat, vals: seq<real>, rowIdxs: seq<nat>)
    requires ColumnsHeld(csc, mat, trapezoidal, done) && done < mat.Length1
    requires |vals| == |rowIdxs| && csc.vals <= vals && csc.rowIdxs <= rowIdxs
    requires Height(mat.Length0, trapezoidal, done) <= mat.Length0
    requires ColumnHeld(vals, rowIdxs, |csc.vals|, mat, done, Height(mat.Length0, trapezoidal, done))
    ensures ColumnsHeld(Csc(vals, rowIdxs, csc.colIdxs + [|vals|]), mat, trapezoidal, done + 1)
  {
    var next := Csc(vals, rowIdxs, csc.colIdxs + [|vals|]);
    forall j, l | 0 <= j && l == j + 1 <= done + 1
      ensures ColumnSorted(vals, rowIdxs, next.colIdxs[j], next.colIdxs[l], Height(mat.Length0, trapezoidal, j))
      ensures forall i | 0 <= i < Height(mat.Length0, trapezoidal, j) ::
                Find(vals, rowIdxs, next.colIdxs[j], next.colIdxs[l], i) == Cleaned(mat[i, j])
    {
      if l <= done {
        forall i | 0 <= i < Height(mat.Length0, trapezoidal, j)
          ensures Find(vals, rowIdxs, next.colIdxs[j], next.colIdxs[l], i) == Cleaned(mat[i, j])
        {
          FindStable(csc.vals, csc.rowIdxs, vals, rowIdxs, csc.colIdxs[j], csc.colIdxs[l], i);
        }
      }
    }
  }

  /** Every column, every row: expanding the arrays gives back the cleaned dense matrix. */
  method CalCSCMatrix(mat: array2<real>) returns (csc: Csc)
    ensures WellFormed(csc, mat.Length0, mat.Length1)
    ensures forall i, j | 0 <= i < mat.Length0
        && 0 <= j < mat.Length1 :: Entry(csc, mat.Length1, i, j) == Cleaned(mat[i, j])
  {
    csc := Csc([], [], [0]);
    for j := 0 to mat.Length1
      invariant ColumnsHeld(csc, mat, false, j)
    {
      var vals, rowIdxs := AppendColumn(mat, j, mat.Length0, csc.vals, csc.rowIdxs);
      ColumnAdded(csc, mat, false, j, vals, rowIdxs);
      csc := Csc(vals, rowIdxs, csc.colIdxs + [|vals|]);
    }
    forall i, j | 0 <= i < mat.Length0 && 0 <= j < mat.Length1
      ensures Entry(csc, mat.Length1, i, j) == Cleaned(mat[i, j])
    {
      var l := j + 1;
      assert Find(csc.vals, csc.rowIdxs, csc.colIdxs[j], csc.colIdxs[l], i) == Cleaned(mat[i, j]);
    }
  }

  /** The symmetric matrix an upper triangular form stands for. */
  ghost function Mirrored(csc: Csc, cols: nat, i: nat, j: nat): real
    requires Offsets(csc, cols) && i < cols && j < cols
  {
    if i <= j then Entry(csc, cols, i, j) else Entry(csc, cols, j, i)
  }

  ghost predicate SymmetricArray(mat: array2<real>)
    reads mat
  {
    mat.Length0 == mat.Length1 && forall i, j | 0 <= i < mat.Length0 && 0 <= j < mat.Length0 :: mat[i, j] == mat[j, i]
  }

  /** The upper triangle only. The source ends the program when the matrix is not square. */
  method CalCSCMatrixTrapezoidal(mat: array2<real>) returns (r: Option<Csc>)
    ensures r.Some? <==> mat.Length0 == mat.Length1
    ensures r.Some? ==> WellFormed(r.value, mat.Length0, mat.Length1)
    ensures r.Some? ==>
              forall i, j | 0 <= i <= j < mat.Length1 :: Entry(r.value, mat.Length1, i, j) == Cleaned(mat[i, j])
    ensures r.Some? ==> forall i, j | 0 <= j < i < mat.Length1 :: Entry(r.value, mat.Length1, i, j) == 0.0
    ensures SymmetricArray(mat) ==>
              forall i, j | 0 <= i < mat.Length0 && 0 <= j < mat.Length1 ::
                Mirrored(r.value, mat.Length1, i, j) == Cleaned(mat[i, j])
  {
    if mat.Length0 != mat.Length1 {
      return None;
    }
    var csc := Csc([], [], [0]);
    var trapLastIdx := 0;
    for j := 0 to mat.Length1
      invariant trapLastIdx == j
      invariant ColumnsHeld(csc, mat, true, j)
    {
      var vals, rowIdxs := AppendColumn(mat, j, trapLastIdx + 1, csc.vals, csc.rowIdxs);
      ColumnAdded(csc, mat, true, j, vals, rowIdxs);
      csc := Csc(vals, rowIdxs, csc.colIdxs + [|vals|]);
      trapLastIdx := trapLastIdx + 1;
    }
    TriangleMeaning(csc, mat);
    return Some(csc);
  }

  lemma TriangleMeaning(csc: Csc, mat: array2<real>)
    requires mat.Length0 == mat.Length1 && ColumnsHeld(csc, mat, true, mat.Length1)
    ensures WellFormed(csc, mat.Length0, mat.Length1)
    ensures forall i, j | 0 <= i <= j < mat.Length1 :: Entry(csc, mat.Length1, i, j) == Cleaned(mat[i, j])
    ensures forall i, j | 0 <= j < i < mat.Length1 :: Entry(csc, mat.Length1, i, j) == 0.0
  {
    forall i, j | 0 <= i < mat.Length1 && 0 <= j < mat.Length1
      ensures Entry(csc, mat.Length1, i, j) == if i <= j then Cleaned(mat[i, j]) else 0.0
    {
      var l := j + 1;
      assert ColumnSorted(csc.vals, csc.rowIdxs, csc.colIdxs[j], csc.colIdxs[l], Height(mat.Length0, true, j));
      if i > j {
        FindAbsent(csc.vals, csc.rowIdxs, csc.colIdxs[j], csc.colIdxs[l], i);
      }
    }
  }
}
