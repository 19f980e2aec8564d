/**
 * The extended Monte Carlo state: the transport state (position, direction,
 * travelled distance) followed by the owning context, a cache of the geodetic
 * coordinates of the position and a cache of the local vertical.
 */
module States {
  import opened Coordinates

  /** The geodetic cache; `computed` says whether `point` belongs to the current position. */
  datatype GeodeticCache = GeodeticCache(computed: bool, point: GeodeticPoint)

  /** The vertical cache: the last local vertical and the distance until which it holds. */
  datatype VerticalCache = VerticalCache(distance: real, last: Vec3)

  datatype State = State(
    position: Vec3,
    direction: Vec3,
    distance: real,
    context: nat,
    geodetic: GeodeticCache,
    vertical: VerticalCache)

  /** `pumas_state_extended_reset`: binds the context and invalidates both caches. */
  function StateExtendedReset(s: State, context: nat): (r: State)
    ensures r.context == context
    ensures !r.geodetic.computed && r.vertical.distance < 0.0
    ensures r.position == s.position && r.direction == s.direction && r.distance == s.distance
  {
    s.(context := context,
       geodetic := s.geodetic.(computed := false),
       vertical := s.vertical.(distance := -1.0))
  }
}
