/** longitudinal_controller_utils.cpp, `findTrajectoryPoseAfterDistance`: the position a given distance
    further along a trajectory. The orientation is not modelled. */
module TrajectoryWalk {
  import opened RealArithmetic

  datatype Position = Position(x: real, y: real, z: real)

  function SquaredDistance(p: Position, q: Position): real {
    Square(q.x - p.x) + Square(q.y - p.y) + Square(q.z - p.z)
  }

  /** `edges[i]` is the distance from point i to point i + 1. */
  predicate Measures(points: seq<Position>, edges: seq<real>) {
    |points| == |edges| + 1 && forall i | 0 <= i < |edges| :: edges[i] >= 0.0
  }

  predicate IsLength(points: seq<Position>, edges: seq<real>, i: nat)
    requires Measures(points, edges) && i < |edges|
  {
    Square(edges[i]) == SquaredDistance(points[i], points[i + 1])
  }

  /** The way from point `from` to point `end`. */
  function Way(edges: seq<real>, from: nat, end: nat): (d: real)
    requires from <= end <= |edges|
    decreases end - from
  {
    if from == end then 0.0 else Way(edges, from, end - 1) + edges[end - 1]
  }

  lemma {:induction false} WayGrows(edges: seq<real>, from: nat, mid: nat, end: nat)
    requires from <= mid <= end <= |edges| && forall i | 0 <= i < |edges| :: edges[i] >= 0.0
    ensures 0.0 <= Way(edges, from, mid) <= Way(edges, from, end)
    decreases end
  {
    if from < end {
      var m := if mid < end then mid else end - 1;
      WayGrows(edges, from, m, end - 1);
    }
  }

  function Between(p: Position, q: Position, ratio: real): Position {
    Position(p.x + Mul(q.x - p.x, ratio), p.y + Mul(q.y - p.y, ratio), p.z + Mul(q.z - p.z, ratio))
  }

  /** On segment i, with way d behind it since point `from`. */
  ghost predicate After(points: seq<Position>, edges: seq<real>, from: nat, i: nat, d: real, p: Position)
    requires Measures(points, edges) && from <= i < |edges|
  {
    && Way(edges, from, i) <= d < Way(edges, from, i + 1)
    && exists ratio :: 0.0 <= ratio < 1.0 && Way(edges, from, i) + Mul(ratio, edges[i]) == d
                       && p == Between(points[i], points[i + 1], ratio)
  }

  /** A distance below zero gives the start, one past the end the last point. */
  method FindTrajectoryPoseAfterDistance(from: nat, distance: real, points: seq<Position>, edges: seq<real>)
    returns (p: Position, ghost segment: nat)
    requires Measures(points, edges)
    ensures from >= |edges| ==> p == points[|edges|]
    ensures from < |edges| && distance < 0.0 ==> p == points[from]
    ensures from < |edges| && distance >= Way(edges, from, |edges|) ==> p == points[|edges|]
    ensures from < |edges| && 0.0 <= distance < Way(edges, from, |edges|) ==>
              from <= segment < |edges| && After(points, edges, from, segment, distance, p)
  {
    var remain := distance;
    p := points[|points| - 1];
    var i := from;
    segment := from;
    while i < |points| - 1
      invariant from <= i && (i <= |edges| || i == from)
      invariant i <= |edges| ==> remain == distance - Way(edges, from, i)
      invariant i <= |edges| ==> i == from || 0.0 <= Way(edges, from, i) <= distance
      invariant p == points[|points| - 1]
    {
      var dist := edges[i];
      WayGrows(edges, from, i, i + 1);
      WayGrows(edges, from, i + 1, |edges|);
      if remain < dist {
        segment := i;
        if remain <= 0.0 {
          p := points[i];
          StartOfSegment(points, edges, from, i);
          return;
        }
        var ratio := Quotient(remain, dist);
        p := Between(points[i], points[i + 1], ratio);
        InsideSegment(points, edges, from, i, remain);
        return;
      }
      remain := remain - dist;
      i := i + 1;
    }
  }

  lemma StartOfSegment(points: seq<Position>, edges: seq<real>, from: nat, i: nat)
    requires Measures(points, edges) && from <= i < |edges|
    ensures edges[i] > 0.0 ==> After(points, edges, from, i, Way(edges, from, i), points[i])
  {
    var p, q := points[i], points[i + 1];
    assert Mul(0.0, edges[i]) == 0.0;
    assert Mul(q.x - p.x, 0.0) == 0.0 && Mul(q.y - p.y, 0.0) == 0.0 && Mul(q.z - p.z, 0.0) == 0.0;
    assert p == Between(p, q, 0.0);
  }

  lemma InsideSegment(points: seq<Position>, edges: seq<real>, from: nat, i: nat, remain: real)
    requires Measures(points, edges) && from <= i < |edges| && 0.0 < remain < edges[i]
    ensures After(points, edges, from, i, Way(edges, from, i) + remain,
                  Between(points[i], points[i + 1], Quotient(remain, edges[i])))
  {
    var ratio := Quotient(remain, edges[i]);
    QuotientTimes(remain, edges[i]);
    assert Mul(0.0, edges[i]) == 0.0 && Mul(1.0, edges[i]) == edges[i];
    QuotientBetween(remain, edges[i], 0.0, 1.0);
    assert ratio != 1.0;
  }

  lemma ScaledSquare(d: real, ratio: real)
    ensures Square(Mul(d, ratio)) == Mul(Square(ratio), Square(d))
  {
    assert (d * ratio) * (d * ratio) == (ratio * ratio) * (d * d);
  }

  /** The answer lies on its segment at exactly the distance still to go from the segment's start. */
  lemma RemainderIsDistance(points: seq<Position>, edges: seq<real>, from: nat, i: nat, d: real, p: Position)
    requires Measures(points, edges) && from <= i < |edges| && After(points, edges, from, i, d, p)
    requires IsLength(points, edges, i)
    ensures SquaredDistance(points[i], p) == Square(d - Way(edges, from, i))
  {
    var ratio :| 0.0 <= ratio < 1.0 && Way(edges, from, i) + Mul(ratio, edges[i]) == d
                 && p == Between(points[i], points[i + 1], ratio);
    var a, b := points[i], points[i + 1];
    ScaledSquare(b.x - a.x, ratio);
    ScaledSquare(b.y - a.y, ratio);
    ScaledSquare(b.z - a.z, ratio);
    ScaledSquare(edges[i], ratio);
    var s := Square(ratio);
    Distribute(s, Square(b.x - a.x), Square(b.y - a.y), Square(b.z - a.z));
    assert Mul(edges[i], ratio) == Mul(ratio, edges[i]);
  }

  lemma Distribute(s: real, x: real, y: real, z: real)
    ensures Mul(s, x + y + z) == Mul(s, x) + Mul(s, y) + Mul(s, z)
  {
  }

  /** There is one answer: the segment and the position are determined by the way. */
  lemma AnswerIsUnique(points: seq<Position>, edges: seq<real>, from: nat, i: nat, j: nat, d: real,
                       p: Position, q: Position)
    requires Measures(points, edges) && from <= i < |edges| && from <= j < |edges|
    requires After(points, edges, from, i, d, p) && After(points, edges, from, j, d, q)
    ensures i == j && p == q
  {
    if i < j {
      WayGrows(edges, from, i + 1, j);
    } else if j < i {
      WayGrows(edges, from, j + 1, i);
    }
    var r :| 0.0 <= r < 1.0 && Way(edges, from, i) + Mul(r, edges[i]) == d
             && p == Between(points[i], points[i + 1], r);
    var s :| 0.0 <= s < 1.0 && Way(edges, from, i) + Mul(s, edges[i]) == d
             && q == Between(points[i], points[i + 1], s);
    QuotientOfProduct(r, edges[i]);
    QuotientOfProduct(s, edges[i]);
  }
}
