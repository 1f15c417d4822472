/** `MPC::generateMPCMatrix` and `MPC::addSteerWeightR`: the stacked matrices are
    allocated as zeros and written in place, block by block. */
module MpcMatrix {
  import opened LinearAlgebra
  import opened RealArithmetic
  import opened MpcProblem
  import opened MpcCondense
  import opened MpcCost
  import opened MpcSteerWeight

  datatype MpcMatrices = MpcMatrices(
    aex: array2<real>, bex: array2<real>, wex: array2<real>, cex: array2<real>,
    qex: array2<real>, r1ex: array2<real>, r2ex: array2<real>, uref: array2<real>)

  /** The entries of a matrix object, zero outside its bounds. */
  ghost function Contents(a: array2<real>): (m: Mat)
    reads a
    ensures forall i, j | 0 <= i < a.Length0 && 0 <= j < a.Length1 :: m(i, j) == a[i, j]
  {
    var rows := seq(a.Length0, i requires 0 <= i < a.Length0 reads a =>
                    seq(a.Length1, j requires 0 <= j < a.Length1 reads a => a[i, j]));
    (i: int, j: int) => if 0 <= i < |rows| && 0 <= j < |rows[i]| then rows[i][j] else 0.0
  }

  ghost function Column(M: Mat, row: int, col: int): Vec {
    k => M(row + k, col)
  }

  ghost function Values(m: MpcMatrices): Matrices
    reads m.aex, m.bex, m.wex, m.cex, m.qex, m.r1ex, m.r2ex, m.uref
  {
    Matrices(Contents(m.aex), Contents(m.bex), Column(Contents(m.wex), 0, 0), Contents(m.cex),
             Contents(m.qex), Contents(m.r1ex), Contents(m.r2ex), Column(Contents(m.uref), 0, 0))
  }

  // ----- block operations -----

  predicate Within(i: int, j: int, row: int, col: int, rows: int, cols: int) {
    row <= i < row + rows && col <= j < col + cols
  }

  /** a.block(row, col, rows, cols) = f */
  method SetBlock(a: array2<real>, row: nat, col: nat, rows: nat, cols: nat, f: Mat)
    requires row + rows <= a.Length0 && col + cols <= a.Length1
    modifies a
    ensures forall i, j | 0 <= i < a.Length0 && 0 <= j < a.Length1 ::
              a[i, j] == if Within(i, j, row, col, rows, cols) then f(i - row, j - col) else old(a[i, j])
  {
    for r := 0 to rows
      invariant forall i, j | 0 <= i < a.Length0 && 0 <= j < a.Length1 ::
                  a[i, j] == if Within(i, j, row, col, r, cols) then f(i - row, j - col) else old(a[i, j])
    {
      for c := 0 to cols
        invariant forall i, j | 0 <= i < a.Length0 && 0 <= j < a.Length1 ::
                    a[i, j] == if Within(i, j, row, col, r, cols) || Within(i, j, row + r, col, 1, c)
                               then f(i - row, j - col) else old(a[i, j])
      {
        a[row + r, col + c] := f(r, c);
      }
    }
  }

  /** a.block(row, col, rows, cols) += f */
  method AddBlock(a: array2<real>, row: nat, col: nat, rows: nat, cols: nat, f: Mat)
    requires row + rows <= a.Length0 && col + cols <= a.Length1
    modifies a
    ensures forall i, j | 0 <= i < a.Length0 && 0 <= j < a.Length1 ::
              a[i, j] == old(a[i, j]) + (if Within(i, j, row, col, rows, cols) then f(i - row, j - col) else 0.0)
  {
    for r := 0 to rows
      invariant forall i, j | 0 <= i < a.Length0 && 0 <= j < a.Length1 ::
                  a[i, j] == old(a[i, j]) + (if Within(i, j, row, col, r, cols) then f(i - row, j - col) else 0.0)
    {
      for c := 0 to cols
        invariant forall i, j | 0 <= i < a.Length0 && 0 <= j < a.Length1 ::
                    a[i, j] == old(a[i, j])
                               + (if Within(i, j, row, col, r, cols) || Within(i, j, row + r, col, 1, c)
                                  then f(i - row, j - col) else 0.0)
      {
        a[row + r, col + c] := a[row + r, col + c] + f(r, c);
      }
    }
  }

  method RowTimesColumn(a: array2<real>, f: Mat, r: nat, n: nat, row: nat, col: nat) returns (s: real)
    requires row + n <= a.Length0 && col < a.Length1
    ensures s == Dot(n, Row(f, r), Column(Contents(a), row, col))
  {
    s := 0.0;
    for k := 0 to n
      invariant s == Sum(k, Times(Row(f, r), Column(Contents(a), row, col)))
    {
      s := s + f(r, k) * a[row + k, col];
    }
  }

  lemma SourceKept(n: nat, f: Mat, now: Mat, before: Mat, source: nat, j: int, r: int)
    requires SameUpTo(n, Column(now, source, j), Column(before, source, j))
    ensures MatVec(n, f, Column(now, source, j))(r) == MatVec(n, f, Column(before, source, j))(r)
  {
    DotExt(n, Row(f, r), Column(now, source, j), Row(f, r), Column(before, source, j));
  }

  /** One entry of the product, while the source still is what it was before. */
  method ProductEntry(a: array2<real>, f: Mat, r: nat, n: nat, source: nat, col: nat, ghost before: Mat)
    returns (s: real)
    requires source + n <= a.Length0 && col < a.Length1
    requires forall i | source <= i < source + n :: a[i, col] == before(i, col)
    ensures s == MatVec(n, f, Column(before, source, col))(r)
  {
    s := RowTimesColumn(a, f, r, n, source, col);
    SourceKept(n, f, Contents(a), before, source, col, r);
  }

  /** Row r of the product block: a[target + r, ..] = f[r, ..] * the source block. */
  method MultiplyRow(a: array2<real>, f: Mat, n: nat, source: nat, target: nat, col: nat, cols: nat, r: nat)
    requires source + n <= target && target + n <= a.Length0 && col + cols <= a.Length1 && r < n
    modifies a
    ensures forall i, j | 0 <= i < a.Length0 && 0 <= j < a.Length1 ::
              a[i, j] == if Within(i, j, target + r, col, 1, cols)
                         then MatVec(n, f, Column(old(Contents(a)), source, j))(r) else old(a[i, j])
  {
    ghost var before := Contents(a);
    ghost var product: Vec := j => MatVec(n, f, Column(before, source, j))(r);
    for c := 0 to cols
      invariant forall i, j | 0 <= i < a.Length0 && 0 <= j < a.Length1 ::
                  a[i, j] == if Within(i, j, target + r, col, 1, c) then product(j) else before(i, j)
    {
      var s := ProductEntry(a, f, r, n, source, col + c, before);
      a[target + r, col + c] := s;
    }
  }

  /** a.block(target, col, n, cols) = f * a.block(source, col, n, cols), the source above the target */
  method MultiplyBlock(a: array2<real>, f: Mat, n: nat, source: nat, target: nat, col: nat, cols: nat)
    requires source + n <= target && target + n <= a.Length0 && col + cols <= a.Length1
    modifies a
    ensures forall i, j | 0 <= i < a.Length0 && 0 <= j < a.Length1 ::
              a[i, j] == if Within(i, j, target, col, n, cols)
                         then MatVec(n, f, Column(old(Contents(a)), source, j))(i - target) else old(a[i, j])
  {
    ghost var before := Contents(a);
    for r := 0 to n
      invariant forall i, j | 0 <= i < a.Length0 && 0 <= j < a.Length1 ::
                  a[i, j] == if Within(i, j, target, col, r, cols)
                             then MatVec(n, f, Column(before, source, j))(i - target) else before(i, j)
    {
      ghost var now := Contents(a);
      MultiplyRow(a, f, n, source, target, col, cols, r);
      forall j | col <= j < col + cols
        ensures MatVec(n, f, Column(now, source, j))(r) == MatVec(n, f, Column(before, source, j))(r)
      {
        assert SameUpTo(n, Column(now, source, j), Column(before, source, j));
        SourceKept(n, f, now, before, source, j, r);
      }
    }
  }

  // ----- steering penalties -----

  /** Adds the steering-rate and steering-acceleration penalties to R. */
  method AddSteerWeightR(p: Problem, r: array2<real>)
    requires p.Valid()
    requires r.Length0 == r.Length1 == p.N()
    modifies r
    ensures Same(p.N(), Contents(r), SteerWeighted(p, old(Contents(r))))
  {
    ghost var before := Contents(r);
    AddSteerRate(p, r);
    ghost var rates := Contents(r);
    AddSteerAcceleration(p, r);
    SteerWeightsCompose(p, before, rates, Contents(r));
  }

  ghost function WithRates(p: Problem, M: Mat): Mat
    requires p.Valid()
  {
    if p.N() <= 1 then M else MatAdd(RateBlocks(p, M, p.N() - 1), Block(0, 1, FirstRate(p)))
  }

  ghost function WithAccelerations(p: Problem, M: Mat): Mat
    requires p.Valid()
  {
    if p.N() <= 1 then M else MatAdd(AccelerationBlocks(p, M, p.N() - 2), Block(0, 2, StartBlock(p)))
  }

  lemma SteerWeightsCompose(p: Problem, M: Mat, M1: Mat, M2: Mat)
    requires p.Valid()
    requires Same(p.N(), M1, WithRates(p, M))
    requires Same(p.N(), M2, WithAccelerations(p, M1))
    ensures Same(p.N(), M2, SteerWeighted(p, M))
  {
    if p.N() > 1 {
      SameAccelerationBlocks(p, p.N() - 2, M1, WithRates(p, M));
    }
  }

  lemma {:induction false} SameAccelerationBlocks(p: Problem, k: nat, M: Mat, M': Mat)
    requires p.Valid() && Same(p.N(), M, M')
    ensures Same(p.N(), AccelerationBlocks(p, M, k), AccelerationBlocks(p, M', k))
  {
    if k > 0 {
      SameAccelerationBlocks(p, k - 1, M, M');
    }
  }

  /** R.block(i, i, size, size) += D on a square R */
  method AddDiagonalBlock(r: array2<real>, i: nat, size: nat, D: Mat)
    requires r.Length0 == r.Length1 && i + size <= r.Length0
    modifies r
    ensures Same(r.Length0, Contents(r), MatAdd(old(Contents(r)), Block(i, size, D)))
  {
    AddBlock(r, i, i, size, size, D);
  }

  lemma RateAdded(p: Problem, M: Mat, now: Mat, after: Mat, k: nat)
    requires p.Valid() && k + 1 < p.N() && Same(p.N(), now, RateBlocks(p, M, k))
    requires Same(p.N(), after, MatAdd(now, Block(k, 2, FirstDifference(RateFactor(p)))))
    ensures Same(p.N(), after, RateBlocks(p, M, k + 1))
  {
  }

  method AddSteerRate(p: Problem, r: array2<real>)
    requires p.Valid()
    requires r.Length0 == r.Length1 == p.N()
    modifies r
    ensures Same(p.N(), Contents(r), WithRates(p, old(Contents(r))))
  {
    var rate := FirstDifference(RateFactor(p));
    ghost var before := Contents(r);
    for i := 0 to if p.N() == 0 then 0 else p.N() - 1
      invariant Same(p.N(), Contents(r), RateBlocks(p, before, i))
    {
      ghost var now := Contents(r);
      AddDiagonalBlock(r, i, 2, rate);
      RateAdded(p, before, now, Contents(r), i);
    }
    if p.N() > 1 {
      r[0, 0] := r[0, 0] + FirstRateFactor(p);
    }
  }

  lemma AccelerationAdded(p: Problem, M: Mat, now: Mat, after: Mat, k: nat)
    requires p.Valid() && k + 2 < p.N() && Same(p.N(), now, AccelerationBlocks(p, M, k))
    requires Same(p.N(), after, MatAdd(now, Block(k, 3, SecondDifference(AccelerationFactor(p)))))
    ensures Same(p.N(), after, AccelerationBlocks(p, M, k + 1))
  {
  }

  method AddAcceleration(p: Problem, r: array2<real>, ghost M: Mat, k: nat)
    requires p.Valid() && k + 2 < p.N()
    requires r.Length0 == r.Length1 == p.N()
    requires Same(p.N(), Contents(r), AccelerationBlocks(p, M, k))
    modifies r
    ensures Same(p.N(), Contents(r), AccelerationBlocks(p, M, k + 1))
  {
    ghost var now := Contents(r);
    AddDiagonalBlock(r, k, 3, SecondDifference(AccelerationFactor(p)));
    AccelerationAdded(p, M, now, Contents(r), k);
  }

  method AddInnerAccelerations(p: Problem, r: array2<real>)
    requires p.Valid() && p.N() > 1
    requires r.Length0 == r.Length1 == p.N()
    modifies r
    ensures Same(p.N(), Contents(r), AccelerationBlocks(p, old(Contents(r)), p.N() - 2))
  {
    ghost var before, added: nat := Contents(r), 0;
    for i := 1 to p.N() - 1
      invariant added == i - 1
      invariant Same(p.N(), Contents(r), AccelerationBlocks(p, before, added))
    {
      AddAcceleration(p, r, before, i - 1);
      added := added + 1;
    }
  }

  method AddSteerAcceleration(p: Problem, r: array2<real>)
    requires p.Valid()
    requires r.Length0 == r.Length1 == p.N()
    modifies r
    ensures Same(p.N(), Contents(r), WithAccelerations(p, old(Contents(r))))
  {
    if p.N() > 1 {
      AddInnerAccelerations(p, r);
      ghost var blocks := Contents(r);
      AddFirstAccelerations(p, r);
      assert Same(p.N(), Contents(r), MatAdd(blocks, Block(0, 2, StartBlock(p))));
    }
  }

  /** The accelerations of stages 0 and 1, whose earlier inputs are zero. */
  method AddFirstAccelerations(p: Problem, r: array2<real>)
    requires p.Valid() && p.N() > 1
    requires r.Length0 == r.Length1 == p.N()
    modifies r
    ensures forall i, j | 0 <= i < p.N() && 0 <= j < p.N() ::
              r[i, j] == old(r[i, j]) + Block(0, 2, StartBlock(p))(i, j)
  {
    var factor, cp1, cp2, cp4 :=
      AccelerationFactor(p), AccelerationFactorCp1(p), AccelerationFactorCp2(p), AccelerationFactorCp4(p);
    r[0, 0] := r[0, 0] + (factor + cp2 + cp1 * 2.0);
    r[1, 0] := r[1, 0] + (-factor - cp1);
    r[0, 1] := r[0, 1] + (-factor - cp1);
    r[1, 1] := r[1, 1] + factor;
    r[0, 0] := r[0, 0] + cp4;
  }

  lemma JerkAdded(p: Problem, now: Mat, after: Mat, k: nat)
    requires p.Valid() && k + 1 < p.N() && Same(p.N(), now, JerkBlocks(p, k))
    requires Same(p.N(), after, MatAdd(now, Block(k, 2, FirstDifference(p.JerkWeight(k)))))
    ensures Same(p.N(), after, JerkBlocks(p, k + 1))
  {
  }

  /** Adds the lateral-jerk penalties to R2ex. */
  method AddJerkWeight(p: Problem, r: array2<real>)
    requires p.Valid()
    requires r.Length0 == r.Length1 == p.N()
    requires forall i, j | 0 <= i < p.N() && 0 <= j < p.N() :: r[i, j] == 0.0
    modifies r
    ensures Same(p.N(), Contents(r), JerkBlocks(p, if p.N() == 0 then 0 else p.N() - 1))
  {
    for i := 0 to if p.N() == 0 then 0 else p.N() - 1
      invariant Same(p.N(), Contents(r), JerkBlocks(p, i))
    {
      ghost var now := Contents(r);
      AddDiagonalBlock(r, i, 2, FirstDifference(p.JerkWeight(i)));
      JerkAdded(p, now, Contents(r), i);
    }
  }

  // ----- one stage -----

  ghost predicate Dimensions(p: Problem, m: MpcMatrices) {
    var n, rows := p.N(), p.N() * p.model.dimX;
    && m.aex.Length0 == m.bex.Length0 == m.wex.Length0 == rows
    && m.aex.Length1 == p.model.dimX && m.bex.Length1 == n && m.wex.Length1 == 1
    && m.cex.Length0 == m.qex.Length0 == m.qex.Length1 == 2 * n && m.cex.Length1 == rows
    && m.r1ex.Length0 == m.r1ex.Length1 == m.r2ex.Length0 == m.r2ex.Length1 == n
    && m.uref.Length0 == n && m.uref.Length1 == 1
  }

  /** The first `rows` rows of a matrix with `cols` columns are unchanged. */
  ghost predicate RowsKept(before: Mat, after: Mat, rows: int, cols: int) {
    forall s, c | 0 <= s < rows && 0 <= c < cols :: after(s, c) == before(s, c)
  }

  ghost predicate ABlockWritten(p: Problem, aex: Mat, i: nat)
    requires i < p.N()
  {
    forall r | 0 <= r < p.model.dimX :: ARow(p, aex, i, r)
  }

  ghost predicate BBlockWritten(p: Problem, bex: Mat, i: nat)
    requires i < p.N()
  {
    forall r | 0 <= r < p.model.dimX :: BRow(p, bex, i, r)
  }

  ghost predicate WBlockWritten(p: Problem, wex: Mat, i: nat)
    requires i < p.N()
  {
    forall r | 0 <= r < p.model.dimX :: WRow(p, Column(wex, 0, 0), i, r)
  }

  ghost predicate AStages(p: Problem, aex: Mat, count: nat)
    requires count <= p.N()
  {
    forall k | 0 <= k < count :: ABlockWritten(p, aex, k)
  }

  ghost predicate BStages(p: Problem, bex: Mat, count: nat)
    requires count <= p.N()
  {
    && (forall k | 0 <= k < count :: BBlockWritten(p, bex, k))
    && (forall s, j | count * p.model.dimX <= s < p.N() * p.model.dimX && 0 <= j < p.N() :: bex(s, j) == 0.0)
  }

  ghost predicate WStages(p: Problem, wex: Mat, count: nat)
    requires count <= p.N()
  {
    forall k | 0 <= k < count :: WBlockWritten(p, wex, k)
  }

  ghost predicate CStages(p: Problem, cex: Mat, count: nat)
    requires count <= p.N()
  {
    && (forall k, b | 0 <= k < count && 0 <= b < 2 :: COutput(p, cex, k, b))
    && (forall q, s | 2 * count <= q < 2 * p.N() && 0 <= s < p.N() * p.model.dimX :: cex(q, s) == 0.0)
  }

  ghost predicate QStages(p: Problem, qex: Mat, count: nat)
    requires count <= p.N()
  {
    && (forall q | 0 <= q < 2 * count :: QRow(p, qex, q))
    && (forall q, s | 2 * count <= q < 2 * p.N() && 0 <= s < 2 * p.N() :: qex(q, s) == 0.0)
  }

  lemma AStagesGrow(p: Problem, before: Mat, after: Mat, i: nat)
    requires i < p.N() && AStages(p, before, i) && ABlockWritten(p, after, i)
    requires RowsKept(before, after, i * p.model.dimX, p.model.dimX)
    ensures AStages(p, after, i + 1)
  {
    forall k, r | 0 <= k < i && 0 <= r < p.model.dimX
      ensures ARow(p, after, k, r)
    {
      assert ABlockWritten(p, before, k) && ARow(p, before, k, r);
      BlockFits(p.model.dimX, k, i);
    }
  }

  lemma BStagesGrow(p: Problem, before: Mat, after: Mat, i: nat)
    requires i < p.N() && BStages(p, before, i) && BBlockWritten(p, after, i)
    requires RowsKept(before, after, i * p.model.dimX, p.N())
    requires forall s, j | i * p.model.dimX + p.model.dimX <= s < p.N() * p.model.dimX && 0 <= j < p.N() ::
               after(s, j) == before(s, j)
    ensures BStages(p, after, i + 1)
  {
    forall k, r | 0 <= k < i && 0 <= r < p.model.dimX
      ensures BRow(p, after, k, r)
    {
      assert BBlockWritten(p, before, k) && BRow(p, before, k, r);
      BlockFits(p.model.dimX, k, i);
    }
    assert (i + 1) * p.model.dimX == i * p.model.dimX + p.model.dimX;
  }

  lemma WStagesGrow(p: Problem, before: Mat, after: Mat, i: nat)
    requires i < p.N() && WStages(p, before, i) && WBlockWritten(p, after, i)
    requires RowsKept(before, after, i * p.model.dimX, 1)
    ensures WStages(p, after, i + 1)
  {
    forall k, r | 0 <= k < i && 0 <= r < p.model.dimX
      ensures WRow(p, Column(after, 0, 0), k, r)
    {
      assert WBlockWritten(p, before, k) && WRow(p, Column(before, 0, 0), k, r);
      BlockFits(p.model.dimX, k, i);
    }
  }

  lemma CStagesGrow(p: Problem, before: Mat, after: Mat, i: nat)
    requires i < p.N() && CStages(p, before, i)
    requires COutput(p, after, i, 0) && COutput(p, after, i, 1)
    requires RowsKept(before, after, 2 * i, p.N() * p.model.dimX)
    requires forall q, s | 2 * i + 2 <= q < 2 * p.N() && 0 <= s < p.N() * p.model.dimX :: after(q, s) == before(q, s)
    ensures CStages(p, after, i + 1)
  {
    forall k, b | 0 <= k < i && 0 <= b < 2
      ensures COutput(p, after, k, b)
    {
      assert COutput(p, before, k, b);
      BlockFits(p.model.dimX, k, p.N());
    }
  }

  lemma QStagesGrow(p: Problem, before: Mat, after: Mat, i: nat)
    requires i < p.N() && QStages(p, before, i)
    requires QRow(p, after, 2 * i) && QRow(p, after, 2 * i + 1)
    requires RowsKept(before, after, 2 * i, 2 * p.N())
    requires forall q, s | 2 * i + 2 <= q < 2 * p.N() && 0 <= s < 2 * p.N() :: after(q, s) == before(q, s)
    ensures QStages(p, after, i + 1)
  {
    forall q | 0 <= q < 2 * i
      ensures QRow(p, after, q)
    {
      assert QRow(p, before, q);
    }
  }

  lemma AWritten(p: Problem, before: Mat, i: nat, r: nat, c: int)
    requires 0 < i < p.N() && ABlockWritten(p, before, i - 1) && 0 <= c < p.model.dimX
    ensures MatVec(p.model.dimX, p.Step(i).a, Column(before, (i - 1) * p.model.dimX, c))(r) == AColumn(p, i, c)(r)
  {
    var n, row, previous := p.model.dimX, Row(p.Step(i).a, r), i - 1;
    forall k | 0 <= k < n
      ensures Column(before, previous * n, c)(k) == AColumn(p, previous, c)(k)
    {
      assert ARow(p, before, previous, k);
    }
    DotExt(n, row, Column(before, previous * n, c), row, AColumn(p, previous, c));
  }

  /** Row block i of Aex. */
  method WriteAex(p: Problem, a: array2<real>, i: nat)
    requires p.Valid() && i < p.N()
    requires a.Length0 == p.N() * p.model.dimX && a.Length1 == p.model.dimX
    requires AStages(p, Contents(a), i)
    modifies a
    ensures AStages(p, Contents(a), i + 1)
    ensures forall r, c | 0 <= r < a.Length0 && 0 <= c < a.Length1
                          && !Within(r, c, i * p.model.dimX, 0, p.model.dimX, p.model.dimX) :: a[r, c] == old(a[r, c])
  {
    var n, row, step := p.model.dimX, i * p.model.dimX, p.Step(i);
    ghost var before := Contents(a);
    BlockFits(n, i, p.N());
    if i == 0 {
      SetBlock(a, 0, 0, n, n, step.a);
      forall r, c | 0 <= r < n && 0 <= c < n
        ensures a[row + r, c] == AColumn(p, i, c)(r)
      {
        AFirst(p, c, r);
      }
    } else {
      MultiplyBlock(a, step.a, n, (i - 1) * n, row, 0, n);
      forall r, c | 0 <= r < n && 0 <= c < n
        ensures a[row + r, c] == AColumn(p, i, c)(r)
      {
        AWritten(p, before, i, r, c);
      }
    }
    ARowsWritten(p, a, i);
    AStagesGrow(p, before, Contents(a), i);
  }

  lemma ARowsWritten(p: Problem, a: array2<real>, i: nat)
    requires p.Valid() && i < p.N()
    requires a.Length0 == p.N() * p.model.dimX && a.Length1 == p.model.dimX
    requires i * p.model.dimX + p.model.dimX <= a.Length0
    requires forall r, c | 0 <= r < p.model.dimX && 0 <= c < p.model.dimX ::
               a[i * p.model.dimX + r, c] == AColumn(p, i, c)(r)
    ensures ABlockWritten(p, Contents(a), i)
  {
  }

  /** Row r, column j of Bex after stage i: propagated for an older input, fresh for its own. */
  ghost function BNext(p: Problem, before: Mat, i: nat, r: int, j: int): real
    requires i < p.N()
  {
    if j == i then p.Step(i).b(r)
    else if j < i then MatVec(p.model.dimX, p.Step(i).a, Column(before, (i - 1) * p.model.dimX, j))(r)
    else 0.0
  }

  lemma BWritten(p: Problem, before: Mat, i: nat, r: nat, j: int)
    requires i < p.N() && 0 <= j < p.N()
    requires i > 0 ==> BBlockWritten(p, before, i - 1)
    ensures BNext(p, before, i, r, j) == BColumn(p, i, j)(r)
  {
    var n, row, previous := p.model.dimX, Row(p.Step(i).a, r), i - 1;
    if j < i {
      forall k | 0 <= k < n
        ensures Column(before, previous * n, j)(k) == BColumn(p, previous, j)(k)
      {
        assert BRow(p, before, previous, k);
      }
      DotExt(n, row, Column(before, previous * n, j), row, BColumn(p, previous, j));
    } else if i < j {
      BLater(p, i, j, r);
    }
  }

  lemma BlockFilled(p: Problem, a: array2<real>, before: Mat, i: nat)
    requires p.Valid() && i < p.N() && (i > 0 ==> BBlockWritten(p, before, i - 1))
    requires a.Length0 == p.N() * p.model.dimX && a.Length1 == p.N() && (i + 1) * p.model.dimX <= a.Length0
    requires forall r: nat, j | r < p.model.dimX && 0 <= j < p.N() ::
               a[i * p.model.dimX + r, j] == BNext(p, before, i, r, j)
    ensures forall r: nat, j | r < p.model.dimX && 0 <= j < p.N() :: a[i * p.model.dimX + r, j] == BColumn(p, i, j)(r)
  {
    forall r: nat, j | r < p.model.dimX && 0 <= j < p.N()
      ensures a[i * p.model.dimX + r, j] == BColumn(p, i, j)(r)
    {
      BWritten(p, before, i, r, j);
    }
  }

  /** Row block i of Bex, whose rows are still zero. */
  method WriteBex(p: Problem, a: array2<real>, i: nat)
    requires p.Valid() && i < p.N()
    requires a.Length0 == p.N() * p.model.dimX && a.Length1 == p.N()
    requires BStages(p, Contents(a), i)
    modifies a
    ensures BStages(p, Contents(a), i + 1)
  {
    var n, row, step := p.model.dimX, i * p.model.dimX, p.Step(i);
    ghost var before := Contents(a);
    BlockFits(n, i, p.N());
    if i == 0 {
      SetBlock(a, 0, 0, n, 1, (r: int, c: int) => step.b(r));
    } else {
      PropagateColumns(p, a, i);
    }
    SetBlock(a, row, i, n, 1, (r: int, c: int) => step.b(r));
    BlockFilled(p, a, before, i);
    BRowsWritten(p, a, i);
    BStagesGrow(p, before, Contents(a), i);
  }

  /** The first j columns of the block at `row` are the block at `source` propagated. */
  ghost predicate OlderColumns(p: Problem, a: array2<real>, before: Mat, row: int, source: int, f: Mat, j: int)
    reads a
  {
    forall s, c | 0 <= s < a.Length0 && 0 <= c < a.Length1 ::
      a[s, c] == if row <= s < row + p.model.dimX && c < j
                 then MatVec(p.model.dimX, f, Column(before, source, c))(s - row) else before(s, c)
  }

  /** Every older column of row block i is the block above it propagated by the model. */
  method PropagateColumns(p: Problem, a: array2<real>, i: nat)
    requires p.Valid() && 0 < i < p.N()
    requires a.Length0 == p.N() * p.model.dimX && a.Length1 == p.N()
    modifies a
    ensures OlderColumns(p, a, old(Contents(a)), i * p.model.dimX, (i - 1) * p.model.dimX, p.Step(i).a, i)
  {
    var row, source := i * p.model.dimX, (i - 1) * p.model.dimX;
    ghost var before := Contents(a);
    BlockFits(p.model.dimX, i, p.N());
    assert source + p.model.dimX == row;
    for j := 0 to i
      invariant OlderColumns(p, a, before, row, source, p.Step(i).a, j)
    {
      PropagateColumn(p, a, before, row, source, p.Step(i).a, j);
    }
  }

  method PropagateColumn(p: Problem, a: array2<real>, ghost before: Mat, row: nat, source: nat, f: Mat, j: nat)
    requires source + p.model.dimX == row && row + p.model.dimX <= a.Length0 && j < a.Length1
    requires OlderColumns(p, a, before, row, source, f, j)
    modifies a
    ensures OlderColumns(p, a, before, row, source, f, j + 1)
  {
    var n := p.model.dimX;
    ghost var now := Contents(a);
    MultiplyBlock(a, f, n, source, row, j, 1);
    forall r | 0 <= r < n
      ensures MatVec(n, f, Column(now, source, j))(r) == MatVec(n, f, Column(before, source, j))(r)
    {
      DotExt(n, Row(f, r), Column(now, source, j), Row(f, r), Column(before, source, j));
    }
  }

  lemma BRowsWritten(p: Problem, a: array2<real>, i: nat)
    requires p.Valid() && i < p.N()
    requires a.Length0 == p.N() * p.model.dimX && a.Length1 == p.N()
    requires i * p.model.dimX + p.model.dimX <= a.Length0
    requires forall r, j | 0 <= r < p.model.dimX && 0 <= j < p.N() ::
               a[i * p.model.dimX + r, j] == BColumn(p, i, j)(r)
    ensures BBlockWritten(p, Contents(a), i)
  {
  }

  /** Row block i of Wex. */
  method WriteWex(p: Problem, a: array2<real>, i: nat)
    requires p.Valid() && i < p.N()
    requires a.Length0 == p.N() * p.model.dimX && a.Length1 == 1
    requires WStages(p, Contents(a), i)
    modifies a
    ensures WStages(p, Contents(a), i + 1)
  {
    var n, row, step := p.model.dimX, i * p.model.dimX, p.Step(i);
    ghost var before := Contents(a);
    BlockFits(n, i, p.N());
    if i == 0 {
      SetBlock(a, 0, 0, n, 1, (r: int, c: int) => step.w(r));
    } else {
      PropagateDisturbance(p, a, i);
    }
    WBlockFilled(p, Contents(a), i);
    WStagesGrow(p, before, Contents(a), i);
  }

  lemma WBlockFilled(p: Problem, wex: Mat, i: nat)
    requires i < p.N() && SameUpTo(p.model.dimX, Column(wex, i * p.model.dimX, 0), WColumn(p, i))
    ensures WBlockWritten(p, wex, i)
  {
    forall r | 0 <= r < p.model.dimX
      ensures WRow(p, Column(wex, 0, 0), i, r)
    {
      assert Column(wex, i * p.model.dimX, 0)(r) == WColumn(p, i)(r);
    }
  }

  /** Stages after the first: the block above propagated, plus this stage's disturbance. */
  method PropagateDisturbance(p: Problem, a: array2<real>, i: nat)
    requires p.Valid() && 0 < i < p.N() && WBlockWritten(p, Contents(a), i - 1)
    requires a.Length0 == p.N() * p.model.dimX && a.Length1 == 1
    modifies a
    ensures SameUpTo(p.model.dimX, Column(Contents(a), i * p.model.dimX, 0), WColumn(p, i))
    ensures forall s | 0 <= s < i * p.model.dimX && s < a.Length0 :: a[s, 0] == old(a[s, 0])
  {
    var n, row, step := p.model.dimX, i * p.model.dimX, p.Step(i);
    ghost var before := Contents(a);
    BlockFits(n, i, p.N());
    assert (i - 1) * n + n == row;
    MultiplyBlock(a, step.a, n, (i - 1) * n, row, 0, 1);
    AddBlock(a, row, 0, n, 1, (r: int, c: int) => step.w(r));
    forall r: nat | r < n
      ensures a[row + r, 0] == WColumn(p, i)(r)
    {
      WWritten(p, before, i, r);
    }
  }

  lemma WColumnWritten(p: Problem, wex: Mat, i: nat, k: nat)
    requires i < p.N() && WBlockWritten(p, wex, i) && k < p.model.dimX
    ensures Column(wex, i * p.model.dimX, 0)(k) == WColumn(p, i)(k)
  {
    assert WRow(p, Column(wex, 0, 0), i, k);
  }

  lemma WWritten(p: Problem, before: Mat, i: nat, r: nat)
    requires 0 < i < p.N() && WBlockWritten(p, before, i - 1)
    ensures MatVec(p.model.dimX, p.Step(i).a, Column(before, (i - 1) * p.model.dimX, 0))(r) + p.Step(i).w(r)
         == WColumn(p, i)(r)
  {
    var n, column := p.model.dimX, Column(before, (i - 1) * p.model.dimX, 0);
    forall k | 0 <= k < n
      ensures column(k) == WColumn(p, i - 1)(k)
    {
      WColumnWritten(p, before, i - 1, k);
    }
    DotExt(n, Row(p.Step(i).a, r), column, Row(p.Step(i).a, r), WColumn(p, i - 1));
  }

  /** Output rows of stage i in Cex. */
  method WriteCex(p: Problem, a: array2<real>, i: nat)
    requires p.Valid() && i < p.N()
    requires a.Length0 == 2 * p.N() && a.Length1 == p.N() * p.model.dimX
    requires CStages(p, Contents(a), i)
    modifies a
    ensures CStages(p, Contents(a), i + 1)
  {
    ghost var before := Contents(a);
    BlockFits(p.model.dimX, i, p.N());
    SetBlock(a, 2 * i, i * p.model.dimX, 2, p.model.dimX, p.Step(i).c);
    CStagesGrow(p, before, Contents(a), i);
  }

  /** Weights of stage i in Qex. */
  method WriteQex(p: Problem, a: array2<real>, i: nat)
    requires p.Valid() && i < p.N()
    requires a.Length0 == a.Length1 == 2 * p.N()
    requires QStages(p, Contents(a), i)
    modifies a
    ensures QStages(p, Contents(a), i + 1)
  {
    ghost var before := Contents(a);
    var lateral, heading := p.LateralWeight(i), p.HeadingWeight(i);
    SetBlock(a, 2 * i, 2 * i, 2, 2, (r: int, c: int) => if r != c then 0.0 else if r == 0 then lateral else heading);
    assert OutputWeight(p, 2 * i) == lateral && OutputWeight(p, 2 * i + 1) == heading;
    assert QRow(p, Contents(a), 2 * i) && QRow(p, Contents(a), 2 * i + 1);
    QStagesGrow(p, before, Contents(a), i);
  }

  // ----- the whole construction -----

  ghost function InputDiagonal(p: Problem): Mat {
    (i, j) => if i == j && 0 <= i < p.N() then p.InputWeight(i) else 0.0
  }

  /** Weights and feed-forward input of the first `count` stages. */
  ghost predicate InputStages(p: Problem, r1: Mat, uref: Mat, count: nat)
    requires count <= p.N()
  {
    && (forall i, j | 0 <= i < p.N() && 0 <= j < p.N() :: r1(i, j) == if i < count then InputDiagonal(p)(i, j) else 0.0)
    && (forall i | 0 <= i < count :: uref(i, 0) == p.ReferenceInput(i))
  }

  method WriteInputs(p: Problem, r1: array2<real>, uref: array2<real>, i: nat)
    requires i < p.N() && r1 != uref
    requires r1.Length0 == r1.Length1 == p.N() && uref.Length0 == p.N() && uref.Length1 == 1
    requires InputStages(p, Contents(r1), Contents(uref), i)
    modifies r1, uref
    ensures InputStages(p, Contents(r1), Contents(uref), i + 1)
  {
    r1[i, i] := p.InputWeight(i);
    uref[i, 0] := p.ReferenceInput(i);
  }

  ghost predicate AllZero(a: array2<real>)
    reads a
  {
    forall i, j | 0 <= i < a.Length0 && 0 <= j < a.Length1 :: a[i, j] == 0.0
  }

  method Zeros(rows: nat, cols: nat) returns (a: array2<real>)
    ensures fresh(a) && a.Length0 == rows && a.Length1 == cols
    ensures AllZero(a)
  {
    a := new real[rows, cols]((i, j) => 0.0);
  }

  /** Everything but the penalties is in place. */
  ghost predicate Stacked(p: Problem, m: MpcMatrices, count: nat)
    requires count <= p.N()
    reads m.aex, m.bex, m.wex, m.cex, m.qex, m.r1ex, m.uref
  {
    && AStages(p, Contents(m.aex), count) && BStages(p, Contents(m.bex), count)
    && WStages(p, Contents(m.wex), count) && CStages(p, Contents(m.cex), count)
    && QStages(p, Contents(m.qex), count) && InputStages(p, Contents(m.r1ex), Contents(m.uref), count)
  }

  ghost predicate Separate(m: MpcMatrices) {
    && m.bex != m.aex && m.wex !in {m.aex, m.bex} && m.cex !in {m.aex, m.bex, m.wex}
    && m.qex !in {m.aex, m.bex, m.wex, m.cex} && m.r1ex !in {m.aex, m.bex, m.wex, m.cex, m.qex}
    && m.r2ex !in {m.aex, m.bex, m.wex, m.cex, m.qex, m.r1ex}
    && m.uref !in {m.aex, m.bex, m.wex, m.cex, m.qex, m.r1ex, m.r2ex}
  }

  method Allocate(p: Problem) returns (m: MpcMatrices)
    ensures Dimensions(p, m) && Separate(m)
    ensures fresh(m.aex) && fresh(m.bex) && fresh(m.wex) && fresh(m.cex)
    ensures fresh(m.qex) && fresh(m.r1ex) && fresh(m.r2ex) && fresh(m.uref)
    ensures AllZero(m.bex) && AllZero(m.cex) && AllZero(m.qex) && AllZero(m.r1ex) && AllZero(m.r2ex)
  {
    var n, rows := p.N(), p.N() * p.model.dimX;
    var aex := Zeros(rows, p.model.dimX);
    var bex := Zeros(rows, n);
    var wex := Zeros(rows, 1);
    var cex := Zeros(2 * n, rows);
    var qex := Zeros(2 * n, 2 * n);
    var r1ex := Zeros(n, n);
    var r2ex := Zeros(n, n);
    var uref := Zeros(n, 1);
    m := MpcMatrices(aex, bex, wex, cex, qex, r1ex, r2ex, uref);
  }

  lemma NothingStacked(p: Problem, m: MpcMatrices)
    requires Dimensions(p, m)
    requires AllZero(m.bex) && AllZero(m.cex) && AllZero(m.qex) && AllZero(m.r1ex)
    ensures Stacked(p, m, 0)
  {
  }

  /** Stage i of the loop that predicts the dynamics. */
  method WriteStage(p: Problem, m: MpcMatrices, i: nat)
    requires p.Valid() && Dimensions(p, m) && Separate(m) && i < p.N()
    requires Stacked(p, m, i)
    modifies m.aex, m.bex, m.wex, m.cex, m.qex, m.r1ex, m.uref
    ensures Stacked(p, m, i + 1)
  {
    WriteAex(p, m.aex, i);
    WriteBex(p, m.bex, i);
    WriteWex(p, m.wex, i);
    WriteCex(p, m.cex, i);
    WriteQex(p, m.qex, i);
    WriteInputs(p, m.r1ex, m.uref, i);
  }

  method StackStages(p: Problem) returns (m: MpcMatrices)
    requires p.Valid()
    ensures Dimensions(p, m) && Separate(m)
    ensures fresh(m.r1ex) && fresh(m.r2ex)
    ensures Stacked(p, m, p.N()) && AllZero(m.r2ex)
  {
    m := Allocate(p);
    NothingStacked(p, m);
    for i := 0 to p.N()
      invariant Stacked(p, m, i) && AllZero(m.r2ex)
    {
      WriteStage(p, m, i);
    }
  }

  /** Builds the stacked matrices of the tracking problem. */
  method GenerateMPCMatrix(p: Problem) returns (m: MpcMatrices)
    requires p.Valid()
    ensures Dimensions(p, m)
    ensures Represents(p, Values(m))
  {
    m := StackStages(p);
    ghost var inputs := Contents(m.r1ex);
    AddJerkWeight(p, m.r2ex);
    AddSteerWeightR(p, m.r1ex);
    StackedRepresents(p, inputs, Values(m), Contents(m.wex), Contents(m.uref));
  }

  lemma StackedRepresents(p: Problem, inputs: Mat, m: Matrices, wex: Mat, uref: Mat)
    requires p.Valid()
    requires m.wex == Column(wex, 0, 0) && m.uref == Column(uref, 0, 0)
    requires AStages(p, m.aex, p.N()) && BStages(p, m.bex, p.N()) && WStages(p, wex, p.N())
    requires CStages(p, m.cex, p.N()) && QStages(p, m.qex, p.N())
    requires InputStages(p, inputs, uref, p.N())
    requires Same(p.N(), m.r1ex, SteerWeighted(p, inputs))
    requires Same(p.N(), m.r2ex, JerkBlocks(p, if p.N() == 0 then 0 else p.N() - 1))
    ensures Represents(p, m)
  {
    DynamicsRepresented(p, m.aex, m.bex, wex);
    InputsRepresented(p, inputs, m.r1ex, m.r2ex, uref);
  }

  lemma DynamicsRepresented(p: Problem, aex: Mat, bex: Mat, wex: Mat)
    requires AStages(p, aex, p.N()) && BStages(p, bex, p.N()) && WStages(p, wex, p.N())
    ensures forall i, r | 0 <= i < p.N() && 0 <= r < p.model.dimX ::
              ARow(p, aex, i, r) && BRow(p, bex, i, r) && WRow(p, Column(wex, 0, 0), i, r)
  {
    forall i, r | 0 <= i < p.N() && 0 <= r < p.model.dimX
      ensures ARow(p, aex, i, r) && BRow(p, bex, i, r) && WRow(p, Column(wex, 0, 0), i, r)
    {
      assert ABlockWritten(p, aex, i) && BBlockWritten(p, bex, i) && WBlockWritten(p, wex, i);
    }
  }

  // ----- the input matrices are the input, smoothness and jerk costs -----

  lemma InputsRepresented(p: Problem, diagonal: Mat, r1: Mat, r2: Mat, uref: Mat)
    requires p.Valid()
    requires InputStages(p, diagonal, uref, p.N())
    requires Same(p.N(), r1, SteerWeighted(p, diagonal))
    requires Same(p.N(), r2, JerkBlocks(p, if p.N() == 0 then 0 else p.N() - 1))
    ensures Symmetric(p.N(), r1) && Symmetric(p.N(), r2)
    ensures forall u: Vec :: Bilinear(p.N(), r1, u, u) == p.InputCost(u) + p.SmoothnessCost(u)
    ensures forall u: Vec :: Bilinear(p.N(), r2, u, u) == p.TotalJerkCost(u)
    ensures SameUpTo(p.N(), Column(uref, 0, 0), p.ReferenceInputs())
  {
    SteerWeightedSymmetric(p, diagonal);
    JerkBlocksSymmetric(p, if p.N() == 0 then 0 else p.N() - 1);
    forall u: Vec
      ensures Bilinear(p.N(), r1, u, u) == p.InputCost(u) + p.SmoothnessCost(u)
      ensures Bilinear(p.N(), r2, u, u) == p.TotalJerkCost(u)
    {
      BilinearExt(p.N(), r1, SteerWeighted(p, diagonal), u, u);
      SteerWeightForm(p, diagonal, u);
      DiagonalForm(p, diagonal, u);
      JerkForm(p, r2, u);
    }
  }

  lemma JerkForm(p: Problem, r2: Mat, u: Vec)
    requires p.Valid()
    requires Same(p.N(), r2, JerkBlocks(p, if p.N() == 0 then 0 else p.N() - 1))
    ensures Bilinear(p.N(), r2, u, u) == p.TotalJerkCost(u)
  {
    var k := if p.N() == 0 then 0 else p.N() - 1;
    BilinearExt(p.N(), r2, JerkBlocks(p, k), u, u);
    JerkBlocksForm(p, k, u);
    SumExt(k, JerkTerms(p, u), i => if 0 <= i < p.N() then p.JerkCost(u, i) else 0.0);
  }

  lemma DiagonalForm(p: Problem, M: Mat, u: Vec)
    requires Same(p.N(), M, InputDiagonal(p))
    ensures Bilinear(p.N(), M, u, u) == p.InputCost(u)
  {
    var w := Times(u, MatVec(p.N(), M, u));
    var f := (i: int) => if 0 <= i < p.N() then p.InputWeight(i) * Square(u(i)) else 0.0;
    forall i | 0 <= i < p.N()
      ensures w(i) == f(i)
    {
      SumSingle(p.N(), Times(Row(M, i), u), i);
      MulSwap(u(i), p.InputWeight(i), u(i));
    }
    SumExt(p.N(), w, f);
    SumExt(p.N(), f, i => if 0 <= i < p.N() then p.InputWeight(i) * Square(u(i)) else 0.0);
  }

  lemma {:induction false} JerkBlocksSymmetric(p: Problem, k: nat)
    requires p.Valid() && (k == 0 || k < p.N())
    ensures Symmetric(p.N(), JerkBlocks(p, k))
  {
    if k > 0 {
      JerkBlocksSymmetric(p, k - 1);
    }
  }

  lemma {:induction false} RateBlocksSymmetric(p: Problem, M: Mat, k: nat)
    requires p.Valid() && Symmetric(p.N(), M)
    ensures Symmetric(p.N(), RateBlocks(p, M, k))
  {
    if k > 0 {
      RateBlocksSymmetric(p, M, k - 1);
    }
  }

  lemma {:induction false} AccelerationBlocksSymmetric(p: Problem, M: Mat, k: nat)
    requires p.Valid() && Symmetric(p.N(), M)
    ensures Symmetric(p.N(), AccelerationBlocks(p, M, k))
  {
    if k > 0 {
      AccelerationBlocksSymmetric(p, M, k - 1);
      forall r, c ensures SecondDifference(AccelerationFactor(p))(r, c) == SecondDifference(AccelerationFactor(p))(c,
            r) {
        assert SecondCoefficient(r) * SecondCoefficient(c) == SecondCoefficient(c) * SecondCoefficient(r);
      }
    }
  }

  lemma SteerWeightedSymmetric(p: Problem, M: Mat)
    requires p.Valid() && Symmetric(p.N(), M)
    ensures Symmetric(p.N(), SteerWeighted(p, M))
  {
    if p.N() > 1 {
      RateBlocksSymmetric(p, M, p.N() - 1);
      var rates := MatAdd(RateBlocks(p, M, p.N() - 1), Block(0, 1, FirstRate(p)));
      AccelerationBlocksSymmetric(p, rates, p.N() - 2);
    }
  }
}
