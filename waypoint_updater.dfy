/**
  The waypoint updater node: it caches the latest route and the latest
  vehicle pose delivered by its callbacks and, on each cycle of its loop,
  publishes the lane of waypoints ahead of the vehicle.
*/
module WaypointUpdaterNode {
  import opened Options
  import opened KdTree
  import opened Waypoints

  class WaypointUpdater {
    var isInitialized: bool
    /** The route; empty until the first route arrives. */
    var baseWaypoints: seq<Waypoint>
    /** The spatial index over `baseWaypoints`. */
    var baseWaypointsKdtree: Tree
    /** The latest pose position of the vehicle, if any has arrived. */
    var heroPosition: Option<Position>
    /** Every lane published on the final-waypoints topic, oldest first. */
    var published: seq<seq<Waypoint>>

    /**
      Once initialised, the route and its index belong together: the index is
      built from exactly the (x, y) of the route's points, in route order.
      While uninitialised there is no route (or an empty one whose index
      could not be built).
    */
    ghost predicate Valid()
      reads this
    {
      (isInitialized ==> baseWaypointsKdtree == Tree(Spatial(baseWaypoints))) &&
      (!isInitialized ==> baseWaypoints == [])
    }

    constructor ()
      ensures Valid()
      ensures !isInitialized && baseWaypoints == [] && heroPosition == None && published == []
    {
      isInitialized := false;
      baseWaypoints := [];
      baseWaypointsKdtree := Tree([]);
      heroPosition := None;
      published := [];
    }

    /** One iteration of the main loop: publish a lane once a route and a pose are known. */
    method MainCycleTick()
      requires Valid()
      modifies this`published
      ensures Valid()
      ensures isInitialized && heroPosition.Some? ==>
        published == old(published) +
          [ForwardWindow(baseWaypoints,
             NextWaypointIdx(baseWaypoints, baseWaypointsKdtree, heroPosition.value.x, heroPosition.value.y))]
      ensures !(isInitialized && heroPosition.Some?) ==> published == old(published)
    {
      if isInitialized && heroPosition.Some? {
        var nextWpIdx := GetNextWaypointIdx(heroPosition.value.x, heroPosition.value.y);
        var updLane := PrepareLane(nextWpIdx);
        PublishLane(updLane);
      }
    }

    method PublishLane(lane: seq<Waypoint>)
      requires Valid()
      modifies this`published
      ensures Valid()
      ensures published == old(published) + [lane]
    {
      published := published + [lane];
    }

    /**
      The index of the waypoint to track from (x, y), or -1; it reads the
      route and its index and changes nothing.
    */
    method GetNextWaypointIdx(x: real, y: real) returns (r: int)
      requires Valid() && isInitialized
      ensures r == -1 || 0 <= r < |baseWaypoints|
      ensures |baseWaypoints| <= 1 ==> r == -1
      ensures r == NextWaypointIdx(baseWaypoints, baseWaypointsKdtree, x, y)
    {
      var waypointsNum := |baseWaypoints|;
      if waypointsNum <= 1 {
        return -1;
      }
      var idx := Query(baseWaypointsKdtree, Point2(x, y));
      r := NextWaypointFrom(baseWaypoints, idx, x, y);
    }

    /** Copies the forward slice of the route starting at `startIdx` into a new lane. */
    method PrepareLane(startIdx: int) returns (lane: seq<Waypoint>)
      ensures lane == ForwardWindow(baseWaypoints, startIdx)
    {
      lane := [];
      if startIdx >= 0 {
        var n := |baseWaypoints|;
        var lo := Min(startIdx, n);
        var hi := Min(startIdx + FinalWpPublishFreq, n);
        var window := baseWaypoints[lo..hi];
        var k := 0;
        while k < |window|
          invariant 0 <= k <= |window|
          invariant lane == window[..k]
        {
          lane := lane + [window[k]];
          k := k + 1;
        }
        assert window[..k] == window;
      }
    }

    method PoseCb(pose: Position)
      requires Valid()
      modifies this`heroPosition
      ensures Valid()
      ensures heroPosition == Some(pose)
    {
      heroPosition := Some(pose);
    }

    /**
      Replaces the route and rebuilds its index; the node is initialised
      afterwards. The index cannot be built over an empty route: the callback
      then fails after clearing the flag, so the node is left uninitialised
      with the empty route and its old index.
    */
    method WaypointsCb(waypoints: seq<Waypoint>)
      modifies this`isInitialized, this`baseWaypoints, this`baseWaypointsKdtree
      ensures Valid()
      ensures isInitialized <==> |waypoints| > 0
      ensures baseWaypoints == waypoints
      ensures |waypoints| > 0 ==> |baseWaypointsKdtree.points| == |waypoints|
      ensures |waypoints| > 0 ==> forall i :: 0 <= i < |waypoints| ==>
        baseWaypointsKdtree.points[i] == Point2(waypoints[i].position.x, waypoints[i].position.y)
      ensures |waypoints| == 0 ==> baseWaypointsKdtree == old(baseWaypointsKdtree)
    {
      isInitialized := false;
      baseWaypoints := waypoints;
      var baseWaypointsSpatial := Spatial(baseWaypoints);
      if |baseWaypointsSpatial| == 0 {
        // the index build fails and the callback ends here
        return;
      }
      baseWaypointsKdtree := Tree(baseWaypointsSpatial);
      isInitialized := true;
    }

    /**
      The path length from waypoint `wp1` to waypoint `wp2` along the route,
      accumulated segment by segment; `seg` is the Euclidean segment length.
    */
    method Distance(waypoints: seq<Waypoint>, wp1: int, wp2: int, seg: SegmentLength) returns (dist: real)
      requires IsEuclideanLength(seg)
      requires IsSpan(waypoints, wp1, wp2)
      ensures dist == PathLength(waypoints, wp1, wp2, seg)
      ensures dist >= 0.0
      ensures wp2 <= wp1 ==> dist == 0.0
    {
      dist := 0.0;
      var from := wp1;
      var i := wp1;
      while i <= wp2
        invariant wp1 <= i && (i == wp1 || i <= wp2 + 1)
        invariant from == if i == wp1 then wp1 else i - 1
        invariant i == wp1 ==> dist == 0.0
        invariant i > wp1 ==> dist == PathLength(waypoints, wp1, from, seg)
      {
        dist := dist + seg(waypoints[from].position, waypoints[i].position);
        from := i;
        i := i + 1;
      }
      PathLengthNonNegative(waypoints, wp1, wp2, seg);
    }
  }

  /**
    Asking the node twice for the next waypoint from the same position gives
    the same answer: the query reads the route and its index and changes
    neither.
  */
  method SelectTwice(node: WaypointUpdater, x: real, y: real) returns (first: int, second: int)
    requires node.Valid() && node.isInitialized
    ensures first == second
    ensures first == -1 || 0 <= first < |node.baseWaypoints|
  {
    first := node.GetNextWaypointIdx(x, y);
    second := node.GetNextWaypointIdx(x, y);
  }

  /**
    A route without points never initialises the node: a cycle that follows,
    even with a pose, publishes nothing.
  */
  method EmptyRouteStaysSilent(pose: Position) returns (initialized: bool, log: seq<seq<Waypoint>>)
    ensures !initialized
    ensures log == []
  {
    var node := new WaypointUpdater();
    node.WaypointsCb([]);
    node.PoseCb(pose);
    node.MainCycleTick();
    initialized, log := node.isInitialized, node.published;
  }
}
