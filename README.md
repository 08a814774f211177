# Waypoint selection and drive-by-wire gating, modelled in Dafny

This project models two decision cores of a self-driving vehicle stack built on ROS:

- The **waypoint updater** node. It caches the latest route (the base waypoints) with a
  spatial index over their (x, y) positions, and the latest vehicle pose. On every cycle
  it selects the next waypoint to track and publishes the forward lane starting there.
  Selection asks the index for the nearest route point. It then decides, with a
  dot-product sign test, whether the vehicle has already passed that point: the test is
  made against the following point, or against the preceding point at the end of the
  route. The answer is an index or `-1`.
- The **drive-by-wire (DBW) node**. It keeps three last-write-wins slots: the DBW enable
  flag, the current velocity and the target velocity. On every tick it runs the
  controller once both velocities are known. It publishes the throttle, steering and
  brake commands only when DBW is enabled and the controller reports correct data.

Files:

- `options.dfy`: the `Option` type used for "not yet received" slots.
- `kdtree.dfy`: the spatial index and its nearest-neighbour query.
- `waypoints.dfy`: next-waypoint selection with its geometric (Thales-disk) reading, the
  forward window, path length along the route, and worked scenarios.
- `waypoint_updater.dfy`: the node as a class with its callbacks, its main-cycle tick,
  the lane-building loop and the distance loop.
- `dbw.dfy`: one DBW tick as a function, runs of callbacks and ticks with the safety
  lemmas, and the node as a class.

Points where the code's behaviour may be surprising:

- Standing exactly on a route point that has a successor selects the successor. The dot
  product is 0 and the test is `<= 0`. On three collinear points at x = 0, 10, 20, the
  query (10, 0) yields 2 (`CollinearVertexScenario`).
- The published lane holds at most 50 waypoints. The code slices with the publishing
  rate constant `FINAL_WP_PUBLISH_FREQ`, not with `LOOKAHEAD_WPS` (200), which it never
  uses.
- For a route of two or more points, `-1` is returned only when the nearest point is the
  last one (the last `ensures` of `NextWaypointFrom`). The first index never yields `-1`.

Publication is modelled as logs. `published` holds every lane sent on the final-waypoints
topic. `emitted` holds every command sent on the three command topics. `controllerCalls`
holds every call made to the controller. The controller keeps hidden state (integrators,
history), so each tick receives the controller as a function `ControlLaw` on that tick's
keyword arguments. `Dbw.Run` folds a sequence of callback deliveries and ticks; its steps are exactly what the callbacks and `DbwNode.Tick` ensure of the node's slots and logs.

## Model

| member | source | states |
|---|---|---|
| `KdTree.Query` | ros/src/waypoint_updater/waypoint_updater.py:68 | the query returns an index of the tree at minimal squared Euclidean distance from the query point |
| `KdTree.QueryFindsUniqueNearest` | ros/src/waypoint_updater/waypoint_updater.py:68 | when one point is strictly nearest, the query returns exactly that point, whatever the tie-breaking |
| `Waypoints.Spatial` | ros/src/waypoint_updater/waypoint_updater.py:110 | the index input has one (x, y) per waypoint, in route order |
| `Waypoints.NextWaypointFrom` | ros/src/waypoint_updater/waypoint_updater.py:70-91 | result is -1 or a route index; a route of at most one point gives -1; with a successor, the result is idx+1 iff the dot product with the next point is <= 0 and idx iff it is > 0, never -1; at the last index the result is idx iff the dot product with the previous point is < 0 and -1 iff it is >= 0; -1 occurs only at the last index |
| `Waypoints.NextWaypointIdx` | ros/src/waypoint_updater/waypoint_updater.py:63-91 | on an index built from the route, the selection from a position is -1 or a route index, -1 for routes of at most one point, and otherwise the disambiguation of an index of the route point nearest to the position in (x, y) |
| `Waypoints.DotIsDiametralDiskTest` | ros/src/waypoint_updater/waypoint_updater.py:75-88 | the dot product is <= 0 (< 0) exactly when the vehicle is in the closed (open) disk whose diameter joins the two route points |
| `Waypoints.SelectionIsDiametralDiskTest` | ros/src/waypoint_updater/waypoint_updater.py:70-91 | the selection equals its geometric reading: track the successor when the vehicle is inside the closed disk having the nearest point and its successor as diameter (the segment is seen under a right or obtuse angle), else the nearest point; at the last point, keep it only when the vehicle is inside the open disk having its predecessor and it as diameter, else -1 |
| `Waypoints.OnVertexTracksSuccessor` | ros/src/waypoint_updater/waypoint_updater.py:77-81 | a vehicle exactly on a point with a successor is told to track the successor |
| `Waypoints.CollinearVertexScenario` | ros/src/waypoint_updater/waypoint_updater.py:77-83 | on points at x = 0, 10, 20 the query (10, 0) selects index 2 |
| `Waypoints.FarToTheSideScenario` | ros/src/waypoint_updater/waypoint_updater.py:77-83 | between the first two points along the route but 100 m to the side, the vehicle is outside the disk test and the nearest point 0 is kept |
| `Waypoints.JustBeforeVertexScenario` | ros/src/waypoint_updater/waypoint_updater.py:77-83 | a metre before the middle point, the middle point (1) is selected |
| `Waypoints.JustAfterVertexScenario` | ros/src/waypoint_updater/waypoint_updater.py:77-83 | a metre past the middle point, the next point (2) is selected |
| `Waypoints.ApproachingRouteEndScenario` | ros/src/waypoint_updater/waypoint_updater.py:85-89 | short of the last point, the last point is selected |
| `Waypoints.PastRouteEndScenario` | ros/src/waypoint_updater/waypoint_updater.py:85-91 | past the last point, -1 is selected |
| `Waypoints.ForwardWindow` | ros/src/waypoint_updater/waypoint_updater.py:93-100 | a negative start gives an empty lane; otherwise the lane has min(50, max(0, n - start)) points and point k is route point start + k |
| `Waypoints.PathLengthNonNegative` | ros/src/waypoint_updater/waypoint_updater.py:129-135 | a path length along the route is never negative |
| `Waypoints.PathLengthSplit` | ros/src/waypoint_updater/waypoint_updater.py:129-135 | path length is additive over consecutive stretches i..j and j..k |
| `Waypoints.PathLengthMonotone` | ros/src/waypoint_updater/waypoint_updater.py:129-135 | extending a stretch of the route never shortens its length |
| `WaypointUpdaterNode.WaypointUpdater.constructor` | ros/src/waypoint_updater/waypoint_updater.py:42-46 | the node starts uninitialised, with no route, no pose and nothing published |
| `WaypointUpdaterNode.WaypointUpdater.MainCycleTick` | ros/src/waypoint_updater/waypoint_updater.py:50-58 | when initialised with a pose, exactly one lane is published: the forward window at the selected index; otherwise nothing is published; no other field changes |
| `WaypointUpdaterNode.WaypointUpdater.PublishLane` | ros/src/waypoint_updater/waypoint_updater.py:60-61 | the lane is appended to the published log |
| `WaypointUpdaterNode.WaypointUpdater.GetNextWaypointIdx` | ros/src/waypoint_updater/waypoint_updater.py:63-91 | returns -1 or a route index (-1 for routes of at most one point), equal to the selection on the current route and index, and changes no field |
| `WaypointUpdaterNode.SelectTwice` | ros/src/waypoint_updater/waypoint_updater.py:63-91 | two selections from the same position on an unchanged node agree |
| `WaypointUpdaterNode.WaypointUpdater.PrepareLane` | ros/src/waypoint_updater/waypoint_updater.py:93-100 | the lane built by the append loop is the forward window of the route at the start index |
| `WaypointUpdaterNode.WaypointUpdater.PoseCb` | ros/src/waypoint_updater/waypoint_updater.py:102-103 | the latest pose replaces the cached one; nothing else changes |
| `WaypointUpdaterNode.WaypointUpdater.WaypointsCb` | ros/src/waypoint_updater/waypoint_updater.py:105-113 | the route is the new one; the node is initialised exactly when the route is non-empty, and the index then holds exactly the (x, y) of every new waypoint in order; for an empty route the index build fails, the old index stays and the node is uninitialised; pose and published lanes are unchanged |
| `WaypointUpdaterNode.EmptyRouteStaysSilent` | ros/src/waypoint_updater/waypoint_updater.py:105-113 | after an empty route arrives, the node stays uninitialised and a cycle with a pose publishes nothing |
| `WaypointUpdaterNode.WaypointUpdater.Distance` | ros/src/waypoint_updater/waypoint_updater.py:129-135 | the accumulated distance is the sum of consecutive segment lengths from wp1 to wp2, is non-negative, and is 0 when wp2 <= wp1 |
| `Dbw.PublishEmitsOneOfEach` | ros/src/twist_controller/dbw_node.py:104-120 | publishing emits exactly one throttle, one steering and one brake command, all enabled, carrying throttle (as a percentage), steer and brake (as a torque) unchanged |
| `Dbw.TickStep` | ros/src/twist_controller/dbw_node.py:82-91 | the controller is called iff both velocities are present; commands are published iff it is called, DBW is enabled and it reports correct data, and they are then its throttle, brake and steering |
| `Dbw.DisabledTickEmitsNothing` | ros/src/twist_controller/dbw_node.py:90-91 | with DBW disabled a tick publishes nothing, whatever the velocities and the controller's answer |
| `Dbw.MissingVelocityTickIsSilent` | ros/src/twist_controller/dbw_node.py:82 | with either velocity absent a tick makes no controller call and publishes nothing |
| `Dbw.ControllerSeesDisabledStatus` | ros/src/twist_controller/dbw_node.py:83-88 | with both velocities present and DBW disabled the controller is still called and receives dbw_status false |
| `Dbw.ControllerArgumentOrder` | ros/src/twist_controller/dbw_node.py:83-88 | the controller receives the target's linear x and angular z, then the current linear x and angular z, then the DBW flag |
| `Dbw.RunKeepsLatest` | ros/src/twist_controller/dbw_node.py:95-102 | after any run of callbacks and ticks, each slot holds the data of the last message on its own topic, or its starting value if none arrived; ticks change no slot |
| `Dbw.DisabledRunEmitsNothing` | ros/src/twist_controller/dbw_node.py:79-102 | over any run of callbacks and ticks that never enables DBW, starting disabled, nothing is ever published |
| `Dbw.NoVelocityRunIsSilent` | ros/src/twist_controller/dbw_node.py:79-99 | until a current velocity arrives the controller is never called and nothing is published |
| `Dbw.InitialTickIsSilent` | ros/src/twist_controller/dbw_node.py:63-65 | a tick in the initial state neither calls the controller nor publishes, and changes no slot |
| `Dbw.HandbackScenario` | ros/src/twist_controller/dbw_node.py:82-96 | with both velocities cached and correct data, a disabled tick publishes nothing and the first tick after enabling publishes that tick's command |
| `Dbw.DbwNode.constructor` | ros/src/twist_controller/dbw_node.py:63-65 | the node starts with DBW disabled, no velocities, no controller calls and nothing published |
| `Dbw.DbwNode.Tick` | ros/src/twist_controller/dbw_node.py:79-93 | one loop iteration appends exactly the controller call and the commands of `TickStep` on the current slots, and changes no slot |
| `Dbw.DbwNode.DbwEnabledCb` | ros/src/twist_controller/dbw_node.py:95-96 | the DBW flag takes the message's value; nothing else changes |
| `Dbw.DbwNode.CurrentVelocityCb` | ros/src/twist_controller/dbw_node.py:98-99 | the current-velocity slot takes the message; nothing else changes |
| `Dbw.DbwNode.TargetVelocityCb` | ros/src/twist_controller/dbw_node.py:101-102 | the target-velocity slot takes the message; nothing else changes |
| `Dbw.DbwNode.Publish` | ros/src/twist_controller/dbw_node.py:104-120 | appends the throttle, the steering and the brake command, in that order, each enabled and carrying its value |

## Left out

- ROS node setup, subscribers, publishers, `rospy.Rate` sleeping and `is_shutdown`: this is transport and scheduling. Each loop is modelled as a single tick method, and each publication as an append to a log.
- The k-d tree internals belong to a foreign library. The tree is modelled by its points, and the query by a linear scan that breaks ties towards the lowest index. The selection lemmas hold for any nearest index.
- Empty route: building the index over no points fails, so the route callback raises after clearing the initialised flag. The model leaves the node uninitialised, with an empty route and its old index, and later cycles publish nothing. The exception itself, and its logging by the ROS runtime, are not modelled.
- On a non-empty route the code queries the tree before it checks the route length. The model skips the query for a one-point route; the result is -1 either way.
- Floating point: coordinates, velocities and distances are exact reals. `math.sqrt` is represented by a segment-length parameter constrained to be the Euclidean length.
- WaypointUpdaterNode.WaypointUpdater.Distance: when the index range is non-empty, it requires `0 <= wp1` and `wp2 < len(waypoints)`. Python's wrap-around for negative indices and its `IndexError` for indices past the end are not modelled.
- The `Controller` class (twist_controller) is not part of this model. It is an arbitrary function per tick, so every DBW property holds whatever the controller computes.
- Parameter bootstrapping through `rospy.get_param` and the controller parameters: configuration only.
- Concurrency: callbacks and ticks are modelled as sequential, atomic method calls. The route and its index are replaced together.
- Messages are reduced to the fields the nodes read: the pose position, the waypoint position and velocity, a velocity's linear x and angular z, and the Bool's data. Python truthiness of a received message is taken as "present". The command type constants are symbolic (`CmdPercent`, `CmdTorque`).
- The empty stubs `traffic_cb` and `obstacle_cb` and the accessors `get_waypoint_velocity` and `set_waypoint_velocity` are not modelled. `LOOKAHEAD_WPS` is kept only as an unused constant, as it is in the code.
