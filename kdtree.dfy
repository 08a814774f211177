/**
  The spatial index the waypoint updater builds over the (x, y) positions of
  its route. The real index is a k-d tree from a foreign library; only the
  answer of its nearest-neighbour query matters to the node, so the tree is
  modelled by the points it was built from and the query by a linear scan
  whose contract is the nearest-neighbour property.
*/
module KdTree {

  datatype Point2 = Point2(x: real, y: real)

  /** Squared Euclidean distance in the plane; it orders points as the distance does. */
  function SqDist(a: Point2, b: Point2): real
  {
    (a.x - b.x) * (a.x - b.x) + (a.y - b.y) * (a.y - b.y)
  }

  /** A tree built from `points`; point i of the tree is point i of the input. */
  datatype Tree = Tree(points: seq<Point2>)

  /** `i` is an index of `points` at minimal distance from `q`. */
  predicate IsNearest(points: seq<Point2>, q: Point2, i: int)
  {
    0 <= i < |points| &&
    forall j :: 0 <= j < |points| ==> SqDist(points[i], q) <= SqDist(points[j], q)
  }

  /**
    The index returned by a nearest-neighbour query for `q`. Ties are broken
    towards the lowest index, which is one of the choices the library may make;
    everything proved about the node's selection holds for any nearest index.
  */
  function Query(t: Tree, q: Point2): (i: nat)
    requires |t.points| > 0
    ensures IsNearest(t.points, q, i)
    decreases |t.points|
  {
    var n := |t.points|;
    if n == 1 then 0
    else
      var best := Query(Tree(t.points[..n - 1]), q);
      if SqDist(t.points[n - 1], q) < SqDist(t.points[best], q) then n - 1 else best
  }

  /** When one point is strictly nearer than all others, every query answers it. */
  lemma QueryFindsUniqueNearest(t: Tree, q: Point2, k: nat)
    requires k < |t.points|
    requires forall j :: 0 <= j < |t.points| && j != k ==> SqDist(t.points[k], q) < SqDist(t.points[j], q)
    ensures Query(t, q) == k
  {
    var i := Query(t, q);
    assert IsNearest(t.points, q, i);
  }
}
