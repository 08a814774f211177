/**
  The pure decision logic of the waypoint updater node: which route point the
  vehicle should track next, the forward window of the route that is
  published from it, and the path length along a stretch of the route.
*/
module Waypoints {
  import opened KdTree

  /** Number of waypoints the node was meant to publish; the code never uses it. */
  const LookaheadWps := 200
  /**
    The node's publishing rate in Hz. The code also slices the published lane
    with this constant, so the lane holds at most 50 waypoints.
  */
  const FinalWpPublishFreq := 50

  datatype Position = Position(x: real, y: real, z: real)

  /** A route point: its pose position and its reference longitudinal velocity. */
  datatype Waypoint = Waypoint(position: Position, linearVelocity: real)

  function Min(a: int, b: int): int { if a <= b then a else b }
  function Max(a: int, b: int): int { if a <= b then b else a }

  /** The (x, y) positions of a route, in route order: what the spatial index is built from. */
  function Spatial(route: seq<Waypoint>): (pts: seq<Point2>)
    ensures |pts| == |route|
    ensures forall i :: 0 <= i < |route| ==> pts[i] == Point2(route[i].position.x, route[i].position.y)
  {
    seq(|route|, i requires 0 <= i < |route| => Point2(route[i].position.x, route[i].position.y))
  }

  //------------------------------------------------------------------------
  // Next-waypoint selection
  //------------------------------------------------------------------------

  /**
    Dot product of the displacements from `a` and from `b` to the point (x, y),
    in the plane.
  */
  function Dot(x: real, y: real, a: Position, b: Position): real
  {
    (x - a.x) * (x - b.x) + (y - a.y) * (y - b.y)
  }

  /**
    The waypoint to track, given the index `idx` of a route point nearest to
    (x, y): -1 for a route of at most one point; otherwise the successor when
    the displacements from the successor and from the nearest point to the
    vehicle make a right or obtuse angle, else the nearest point; at the last
    point, that point only when the displacements from its predecessor and
    from it make an obtuse angle, else -1.
  */
  function NextWaypointFrom(route: seq<Waypoint>, idx: int, x: real, y: real): (r: int)
    requires |route| <= 1 || 0 <= idx < |route|
    ensures r == -1 || 0 <= r < |route|
    ensures |route| <= 1 ==> r == -1
    ensures |route| >= 2 && idx + 1 < |route| ==>
      r != -1 &&
      (r == idx + 1 <==> Dot(x, y, route[idx + 1].position, route[idx].position) <= 0.0) &&
      (r == idx <==> Dot(x, y, route[idx + 1].position, route[idx].position) > 0.0)
    ensures |route| >= 2 && idx == |route| - 1 ==>
      (r == idx <==> Dot(x, y, route[idx - 1].position, route[idx].position) < 0.0) &&
      (r == -1 <==> Dot(x, y, route[idx - 1].position, route[idx].position) >= 0.0)
    ensures |route| >= 2 && r == -1 ==> idx == |route| - 1
  {
    var waypointsNum := |route|;
    if waypointsNum <= 1 then -1
    else
      var cur := route[idx].position;
      if idx + 1 < waypointsNum then
        if Dot(x, y, route[idx + 1].position, cur) <= 0.0 then idx + 1 else idx
      else if idx >= 1 && Dot(x, y, route[idx - 1].position, cur) < 0.0 then idx
      else -1
  }

  /**
    The selection the node performs on each cycle: the spatial index is asked
    for the point nearest to (x, y), then the nearest index is disambiguated.
  */
  function NextWaypointIdx(route: seq<Waypoint>, tree: Tree, x: real, y: real): (r: int)
    requires tree == Tree(Spatial(route))
    ensures r == -1 || 0 <= r < |route|
    ensures |route| <= 1 ==> r == -1
    ensures |route| >= 2 ==>
      var idx := Query(tree, Point2(x, y));
      IsNearest(Spatial(route), Point2(x, y), idx) && r == NextWaypointFrom(route, idx, x, y)
  {
    if |route| <= 1 then -1
    else NextWaypointFrom(route, Query(tree, Point2(x, y)), x, y)
  }

  /**
    (x, y) lies in the closed disk whose diameter is the segment from `a` to
    `b`: by Thales' theorem, the segment is seen from (x, y) under a right or
    an obtuse angle. A point in the disk lies between the two points along the
    segment, but a point between them far to the side lies outside it.
  */
  predicate InClosedDiametralDisk(x: real, y: real, a: Position, b: Position)
  {
    (2.0 * x - a.x - b.x) * (2.0 * x - a.x - b.x) + (2.0 * y - a.y - b.y) * (2.0 * y - a.y - b.y)
      <= (a.x - b.x) * (a.x - b.x) + (a.y - b.y) * (a.y - b.y)
  }

  /** (x, y) lies strictly inside the disk whose diameter is the segment from `a` to `b`. */
  predicate InOpenDiametralDisk(x: real, y: real, a: Position, b: Position)
  {
    (2.0 * x - a.x - b.x) * (2.0 * x - a.x - b.x) + (2.0 * y - a.y - b.y) * (2.0 * y - a.y - b.y)
      < (a.x - b.x) * (a.x - b.x) + (a.y - b.y) * (a.y - b.y)
  }

  /** The sign of the dot product is a diametral-disk test. */
  lemma DotIsDiametralDiskTest(x: real, y: real, a: Position, b: Position)
    ensures Dot(x, y, a, b) <= 0.0 <==> InClosedDiametralDisk(x, y, a, b)
    ensures Dot(x, y, a, b) < 0.0 <==> InOpenDiametralDisk(x, y, a, b)
  {
    var u, v := x - a.x, x - b.x;
    var s, t := y - a.y, y - b.y;
    assert (u + v) * (u + v) - (u - v) * (u - v) == 4.0 * (u * v);
    assert (s + t) * (s + t) - (s - t) * (s - t) == 4.0 * (s * t);
    assert 2.0 * x - a.x - b.x == u + v && a.x - b.x == v - u;
    assert 2.0 * y - a.y - b.y == s + t && a.y - b.y == t - s;
  }

  /**
    A reference statement of the selection in geometric terms: with a
    successor, track it when the vehicle is inside the closed disk having the
    nearest point and its successor as diameter, else the nearest point; at
    the end of the route, keep the last point only while the vehicle is inside
    the open disk having its predecessor and it as diameter, else -1.
  */
  function GeometricNext(route: seq<Waypoint>, idx: int, x: real, y: real): int
    requires |route| <= 1 || 0 <= idx < |route|
  {
    if |route| <= 1 then -1
    else if idx + 1 < |route| then
      if InClosedDiametralDisk(x, y, route[idx].position, route[idx + 1].position) then idx + 1 else idx
    else if idx >= 1 && InOpenDiametralDisk(x, y, route[idx - 1].position, route[idx].position) then idx
    else -1
  }

  lemma SelectionIsDiametralDiskTest(route: seq<Waypoint>, idx: int, x: real, y: real)
    requires |route| <= 1 || 0 <= idx < |route|
    ensures NextWaypointFrom(route, idx, x, y) == GeometricNext(route, idx, x, y)
  {
    if |route| >= 2 {
      if idx + 1 < |route| {
        DotIsDiametralDiskTest(x, y, route[idx + 1].position, route[idx].position);
        DiametralDiskIsSymmetric(x, y, route[idx + 1].position, route[idx].position);
      } else if idx >= 1 {
        DotIsDiametralDiskTest(x, y, route[idx - 1].position, route[idx].position);
      }
    }
  }

  lemma DiametralDiskIsSymmetric(x: real, y: real, a: Position, b: Position)
    ensures InClosedDiametralDisk(x, y, a, b) <==> InClosedDiametralDisk(x, y, b, a)
  {
    assert (a.x - b.x) * (a.x - b.x) == (b.x - a.x) * (b.x - a.x);
    assert (a.y - b.y) * (a.y - b.y) == (b.y - a.y) * (b.y - a.y);
  }

  /**
    A vehicle standing exactly on a route point that has a successor is told
    to track the successor: both displacements meet at zero and the test is
    `<= 0`.
  */
  lemma OnVertexTracksSuccessor(route: seq<Waypoint>, idx: int)
    requires 0 <= idx && idx + 1 < |route|
    ensures NextWaypointFrom(route, idx, route[idx].position.x, route[idx].position.y) == idx + 1
  {
  }

  //------------------------------------------------------------------------
  // Forward window
  //------------------------------------------------------------------------

  /**
    The lane published for a selected index: nothing for a negative index,
    otherwise the route from that index on, at most `FinalWpPublishFreq`
    points, cut at the end of the route (Python slice semantics).
  */
  function ForwardWindow(route: seq<Waypoint>, start: int): (lane: seq<Waypoint>)
    ensures start < 0 ==> lane == []
    ensures start >= 0 ==> |lane| == Min(FinalWpPublishFreq, Max(0, |route| - start))
    ensures start >= 0 ==> forall k :: 0 <= k < |lane| ==> lane[k] == route[start + k]
  {
    if start < 0 || start >= |route| then []
    else route[start .. Min(start + FinalWpPublishFreq, |route|)]
  }

  //------------------------------------------------------------------------
  // Path length
  //------------------------------------------------------------------------

  /** The length of the straight segment between two positions. */
  type SegmentLength = (Position, Position) -> real

  function SqDist3(a: Position, b: Position): real
  {
    (a.x - b.x) * (a.x - b.x) + (a.y - b.y) * (a.y - b.y) + (a.z - b.z) * (a.z - b.z)
  }

  /**
    `seg` is the Euclidean length: non-negative, its square is the squared
    distance, and so it is zero from a point to itself (that last fact follows
    from the first two, and is written out for the solver).
  */
  ghost predicate IsEuclideanLength(seg: SegmentLength)
  {
    (forall a, b :: seg(a, b) >= 0.0 && seg(a, b) * seg(a, b) == SqDist3(a, b)) &&
    (forall a :: seg(a, a) == 0.0)
  }

  /**
    The points `i` to `j` can be visited: the range is empty, or every index
    in it, and `i` itself, lies inside the route.
  */
  predicate IsSpan(route: seq<Waypoint>, i: int, j: int)
  {
    j < i || (0 <= i && j < |route|)
  }

  /** Sum of the lengths of the consecutive segments from point `i` to point `j`. */
  function PathLength(route: seq<Waypoint>, i: int, j: int, seg: SegmentLength): real
    requires IsSpan(route, i, j)
    decreases j - i
  {
    if j <= i then 0.0
    else PathLength(route, i, j - 1, seg) + seg(route[j - 1].position, route[j].position)
  }

  lemma {:induction false} PathLengthNonNegative(route: seq<Waypoint>, i: int, j: int, seg: SegmentLength)
    requires IsEuclideanLength(seg)
    requires IsSpan(route, i, j)
    ensures PathLength(route, i, j, seg) >= 0.0
    decreases j - i
  {
    if j > i {
      PathLengthNonNegative(route, i, j - 1, seg);
      assert seg(route[j - 1].position, route[j].position) >= 0.0;
    }
  }

  /** Path length is additive over consecutive stretches of the route. */
  lemma {:induction false} PathLengthSplit(route: seq<Waypoint>, i: int, j: int, k: int, seg: SegmentLength)
    requires 0 <= i <= j <= k < |route|
    ensures PathLength(route, i, k, seg) == PathLength(route, i, j, seg) + PathLength(route, j, k, seg)
    decreases k - j
  {
    if k > j {
      PathLengthSplit(route, i, j, k - 1, seg);
    }
  }

  /** Extending a stretch of the route never shortens it. */
  lemma PathLengthMonotone(route: seq<Waypoint>, i: int, j: int, k: int, seg: SegmentLength)
    requires IsEuclideanLength(seg)
    requires 0 <= i <= j <= k < |route|
    ensures PathLength(route, i, j, seg) <= PathLength(route, i, k, seg)
  {
    PathLengthSplit(route, i, j, k, seg);
    PathLengthNonNegative(route, j, k, seg);
  }

  //------------------------------------------------------------------------
  // Worked scenarios on a straight route of three points 10 m apart
  //------------------------------------------------------------------------

  function StraightRoute(): (route: seq<Waypoint>)
    ensures |route| == 3
  {
    [Waypoint(Position(0.0, 0.0, 0.0), 0.0),
     Waypoint(Position(10.0, 0.0, 0.0), 0.0),
     Waypoint(Position(20.0, 0.0, 0.0), 0.0)]
  }

  lemma StraightRouteNearest(x: real, k: nat)
    requires k < 3
    requires forall j :: 0 <= j < 3 && j != k ==>
      SqDist(Spatial(StraightRoute())[k], Point2(x, 0.0)) < SqDist(Spatial(StraightRoute())[j], Point2(x, 0.0))
    ensures Query(Tree(Spatial(StraightRoute())), Point2(x, 0.0)) == k
  {
    QueryFindsUniqueNearest(Tree(Spatial(StraightRoute())), Point2(x, 0.0), k);
  }

  /**
    Standing exactly on the middle point selects the point after it: the
    displacement to the nearest point is zero, so the dot product is 0 and
    the `<= 0` test passes.
  */
  lemma CollinearVertexScenario()
    ensures NextWaypointIdx(StraightRoute(), Tree(Spatial(StraightRoute())), 10.0, 0.0) == 2
  {
    StraightRouteNearest(10.0, 1);
  }

  /** One metre before the middle point, the middle point is still ahead. */
  lemma JustBeforeVertexScenario()
    ensures NextWaypointIdx(StraightRoute(), Tree(Spatial(StraightRoute())), 9.0, 0.0) == 1
  {
    StraightRouteNearest(9.0, 1);
  }

  /** One metre past the middle point, the point after it is tracked. */
  lemma JustAfterVertexScenario()
    ensures NextWaypointIdx(StraightRoute(), Tree(Spatial(StraightRoute())), 11.0, 0.0) == 2
  {
    StraightRouteNearest(11.0, 1);
  }

  /** Short of the last point, the last point is tracked. */
  lemma ApproachingRouteEndScenario()
    ensures NextWaypointIdx(StraightRoute(), Tree(Spatial(StraightRoute())), 19.0, 0.0) == 2
  {
    StraightRouteNearest(19.0, 2);
  }

  /** Past the last point the route is exhausted and no index is selected. */
  lemma PastRouteEndScenario()
    ensures NextWaypointIdx(StraightRoute(), Tree(Spatial(StraightRoute())), 21.0, 0.0) == -1
  {
    StraightRouteNearest(21.0, 2);
  }

  /**
    Between the first two points along the route but far to the side, the
    vehicle is outside the disk on that segment, so the nearest point is kept.
  */
  lemma FarToTheSideScenario()
    ensures NextWaypointFrom(StraightRoute(), 0, 4.0, 100.0) == 0
    ensures !InClosedDiametralDisk(4.0, 100.0, StraightRoute()[0].position, StraightRoute()[1].position)
  {
  }
}
