/**
 * Propagation media: the transparent medium, media of uniform density, and media
 * whose density follows a linear or exponential gradient along an axis, possibly
 * the local vertical (`project_altitude`).
 *
 * A medium handed out by a geometry is only compared by identity, so `Medium`
 * is an identity; `UniformMedium` and `GradientMedium` hold the contents their
 * `locals` callbacks read.
 */
module Media {
  import opened Wrappers
  import opened Coordinates
  import opened States

  /** A medium reference: the transparent sentinel or a physical medium `id`. */
  datatype Medium = Transparent | Physical(id: nat)

  /** What a geometry's `get` callback reports: a medium (NULL when `None`) and a step. */
  datatype Probe = Probe(medium: Option<Medium>, step: real)

  /** The local properties a `locals` callback fills. */
  datatype Locals = Locals(density: real, magnet: Vec3)

  /**
   * What the current geometry's magnet hook contributes: a field and the step it
   * proposes. `None` stands for a geometry without a magnet hook.
   */
  datatype MagnetSample = MagnetSample(field: Vec3, step: real)

  /** The outcome of a `locals` callback: the locals and the proposed step. */
  datatype LocalsOutcome = LocalsOutcome(locals: Locals, step: real)

  /**
   * `add_global_magnet`: adds the global field to `magnet` and returns the hook's
   * step, or leaves it untouched and returns 0 without a hook.
   */
  function AddGlobalMagnet(magnet: Vec3, global: Option<MagnetSample>): (r: (Vec3, real))
    ensures global.None? ==> r == (magnet, 0.0)
    ensures global.Some? ==> Sub(r.0, magnet) == global.value.field && r.1 == global.value.step
  {
    if global.None? then (magnet, 0.0) else (Add(magnet, global.value.field), global.value.step)
  }

  // ---------------------------------------------------------------------------
  // Uniform media.

  datatype UniformMedium = UniformMedium(material: int, locals: Locals)

  /** `pumas_medium_uniform_initialise`: a NULL field means no field. */
  function UniformInitialise(material: int, density: real, magnet: Option<Vec3>): (m: UniformMedium)
    ensures m.material == material && m.locals.density == density
    ensures m.locals.magnet == magnet.GetOr(ZERO)
  {
    UniformMedium(material, Locals(density, if magnet.Some? then magnet.value else ZERO))
  }

  /** `uniform_locals`: the stored locals plus the global field; the step is the hook's. */
  function UniformLocals(m: UniformMedium, global: Option<MagnetSample>): (r: LocalsOutcome)
    ensures r.locals.density == m.locals.density
    ensures global.None? ==> r.locals.magnet == m.locals.magnet && r.step == 0.0
    ensures global.Some? ==> Sub(r.locals.magnet, m.locals.magnet) == global.value.field && r.step == global.value.step
  {
    var (b, s) := AddGlobalMagnet(m.locals.magnet, global);
    LocalsOutcome(Locals(m.locals.density, b), s)
  }

  /** Without a global field, a uniform medium returns exactly what it was initialised with. */
  lemma UniformRoundTrip(material: int, density: real, magnet: Option<Vec3>)
    ensures UniformLocals(UniformInitialise(material, density, magnet), None)
         == LocalsOutcome(Locals(density, magnet.GetOr(ZERO)), 0.0)
  {
  }

  // ---------------------------------------------------------------------------
  // Gradient media.

  const GRADIENT_MIN_PROJECTION: real := 0.05
  const GRADIENT_RESOLUTION: real := 0.01
  const VERTICAL_UPDATE_DISTANCE: real := 1000.0

  datatype GradientType = Linear | Exponential

  /** The projector: the built-in axis projection (NULL) or `project_altitude`. */
  datatype Projector = Axis | Altitude

  /** `scale` is the source's `lambda`, the gradient's length scale. */
  datatype Gradient = Gradient(kind: GradientType, scale: real, z0: real, rho0: real, project: Projector, direction: Vec3)

  datatype GradientMedium = GradientMedium(material: int, gradient: Gradient, magnet: Vec3)

  /** The geodetic and local-vertical services of the topography library. */
  datatype Earth = Earth(
    toGeodetic: Vec3 -> GeodeticPoint,
    horizontalToEcef: (real, real, real, real) -> Vec3)

  /**
   * `pumas_medium_gradient_initialise`: no projector and a null axis; a NULL field
   * means no field.
   */
  function GradientInitialise(material: int, kind: GradientType, scale: real, z0: real, rho0: real, magnet: Option<Vec3>): (m: GradientMedium)
    ensures m.material == material && m.magnet == magnet.GetOr(ZERO)
    ensures m.gradient.kind == kind && m.gradient.scale == scale && m.gradient.z0 == z0 && m.gradient.rho0 == rho0
    ensures m.gradient.project == Axis && m.gradient.direction == ZERO
  {
    GradientMedium(material, Gradient(kind, scale, z0, rho0, Axis, ZERO), if magnet.Some? then magnet.value else ZERO)
  }

  /** The outcome of a projection: the coordinate, the updated axis and the updated state. */
  datatype Projection = Projection(z: real, direction: Vec3, state: State)

  /**
   * `pumas_medium_gradient_project_altitude`: fills the geodetic cache if it is
   * stale, refreshes the vertical once the travelled distance reaches the cache
   * limit (valid for another 1 km), copies the vertical to the gradient axis and
   * returns the altitude.
   */
  function ProjectAltitude(s: State, earth: Earth): (r: Projection)
    ensures r.state.geodetic.computed
    ensures s.geodetic.computed ==> r.state.geodetic == s.geodetic
    ensures !s.geodetic.computed ==> r.state.geodetic.point == earth.toGeodetic(s.position)
    ensures r.z == r.state.geodetic.point.altitude
    ensures r.direction == r.state.vertical.last
    ensures s.distance < s.vertical.distance ==> r.state.vertical == s.vertical
    ensures s.distance >= s.vertical.distance ==>
      var g := r.state.geodetic.point;
      r.state.vertical == VerticalCache(s.distance + VERTICAL_UPDATE_DISTANCE, earth.horizontalToEcef(g.latitude, g.longitude, 0.0, 90.0))
    ensures r.state.(geodetic := s.geodetic, vertical := s.vertical) == s
  {
    var geodetic := if s.geodetic.computed then s.geodetic else GeodeticCache(true, earth.toGeodetic(s.position));
    var g := geodetic.point;
    var vertical :=
      if s.distance >= s.vertical.distance then
        VerticalCache(s.distance + VERTICAL_UPDATE_DISTANCE, earth.horizontalToEcef(g.latitude, g.longitude, 0.0, 90.0))
      else s.vertical;
    Projection(g.altitude, vertical.last, s.(geodetic := geodetic, vertical := vertical))
  }

  /** Both caches make a second projection at the same state a no-op. */
  lemma ProjectAltitudeIdempotent(s: State, earth: Earth)
    ensures var r := ProjectAltitude(s, earth);
            ProjectAltitude(r.state, earth) == r
  {
  }

  /**
   * After a state reset, a projection at any non-negative distance recomputes
   * both the geodetic coordinates and the vertical from the position.
   */
  lemma ProjectAltitudeAfterReset(s: State, context: nat, earth: Earth)
    requires s.distance >= 0.0
    ensures var r := ProjectAltitude(StateExtendedReset(s, context), earth);
            var g := earth.toGeodetic(s.position);
            && r.z == g.altitude
            && r.direction == earth.horizontalToEcef(g.latitude, g.longitude, 0.0, 90.0)
            && r.state.vertical.distance == s.distance + VERTICAL_UPDATE_DISTANCE
  {
  }

  /** The projection a gradient medium applies: along its axis, or the altitude. */
  function Project(g: Gradient, s: State, earth: Earth): (r: Projection)
    ensures g.project == Axis ==> r.z == Dot(s.position, g.direction) && r.direction == g.direction && r.state == s
    ensures g.project == Altitude ==> r == ProjectAltitude(s, earth)
  {
    match g.project
    case Axis => Projection(Dot(s.position, g.direction), g.direction, s)
    case Altitude => ProjectAltitude(s, earth)
  }

  /** `|u . v|` floored at GRADIENT_MIN_PROJECTION. */
  function Obliquity(u: Vec3, v: Vec3): (d: real)
    ensures d >= GRADIENT_MIN_PROJECTION
    ensures d == GRADIENT_MIN_PROJECTION || d == Abs(Dot(u, v))
    ensures Abs(Dot(u, v)) >= GRADIENT_MIN_PROJECTION ==> d == Abs(Dot(u, v))
  {
    var d := Abs(Dot(u, v));
    if d < GRADIENT_MIN_PROJECTION then GRADIENT_MIN_PROJECTION else d
  }

  /** The gradient step: the distance over which the density changes by 1 %, along the direction. */
  function GradientStep(scale: real, d: real): (s: real)
    requires d >= GRADIENT_MIN_PROJECTION
    ensures s >= 0.0 && (scale != 0.0 ==> s > 0.0)
    ensures s <= Abs(scale) * (GRADIENT_RESOLUTION / GRADIENT_MIN_PROJECTION)
  {
    var q := Abs(scale) / d;
    assert q * d == Abs(scale);
    assert q <= Abs(scale) / GRADIENT_MIN_PROJECTION by {
      assert q * GRADIENT_MIN_PROJECTION <= q * d;
    }
    q * GRADIENT_RESOLUTION
  }

  /** The density law at projected coordinate `z`; `exp` is the C library's. */
  function Density(g: Gradient, z: real, exp: real -> real): real
    requires g.scale != 0.0
  {
    match g.kind
    case Linear => (1.0 + (z - g.z0) / g.scale) * g.rho0
    case Exponential => g.rho0 * exp((z - g.z0) / g.scale)
  }

  /** The outcome of `gradient_locals`, including the updated medium and state. */
  datatype GradientOutcome = GradientOutcome(locals: Locals, step: real, medium: GradientMedium, state: State)

  /**
   * `gradient_locals`: the field is the medium's plus the global one; the density
   * follows the gradient law at the projected coordinate; the step is the gradient
   * step along the current direction, capped by the hook's step when that is
   * positive.
   */
  function GradientLocals(m: GradientMedium, s: State, global: Option<MagnetSample>, earth: Earth, exp: real -> real): (r: GradientOutcome)
    requires m.gradient.scale != 0.0
    ensures var p := Project(m.gradient, s, earth);
            && r.state == p.state
            && r.medium == m.(gradient := m.gradient.(direction := p.direction))
            && r.locals.density == Density(m.gradient, p.z, exp)
    ensures r.locals.magnet == AddGlobalMagnet(m.magnet, global).0
    ensures var limit := GradientStep(m.gradient.scale, Obliquity(r.medium.gradient.direction, s.direction));
            && 0.0 < r.step <= limit
            && (global.None? || global.value.step <= 0.0 ==> r.step == limit)
            && (global.Some? && global.value.step > 0.0 ==> r.step == if global.value.step < limit then global.value.step else limit)
    ensures r.step <= Abs(m.gradient.scale) * (GRADIENT_RESOLUTION / GRADIENT_MIN_PROJECTION)
  {
    var (b, step) := AddGlobalMagnet(m.magnet, global);
    var p := Project(m.gradient, s, earth);
    var medium := m.(gradient := m.gradient.(direction := p.direction));
    var d := Obliquity(p.direction, s.direction);
    var step2 := GradientStep(m.gradient.scale, d);
    var density := Density(m.gradient, p.z, exp);
    GradientOutcome(Locals(density, b), if step <= 0.0 then step2 else if step < step2 then step else step2, medium, p.state)
  }

  /** At the reference coordinate both laws give the reference density. */
  lemma DensityAtReference(g: Gradient, exp: real -> real)
    requires g.scale != 0.0 && exp(0.0) == 1.0
    ensures Density(g, g.z0, exp) == g.rho0
  {
  }

  /** With a positive scale and density, the linear law increases along the axis. */
  lemma LinearDensityIncreases(g: Gradient, z1: real, z2: real, exp: real -> real)
    requires g.kind == Linear && g.scale > 0.0 && g.rho0 > 0.0 && z1 < z2
    ensures Density(g, z1, exp) < Density(g, z2, exp)
  {
    assert (z1 - g.z0) / g.scale < (z2 - g.z0) / g.scale by {
      assert z1 - g.z0 < z2 - g.z0;
    }
  }

  /**
   * A freshly initialised gradient medium has a null axis, so every position
   * projects to 0 and the direction is taken as maximally oblique: the density is
   * the law at 0 and, without a global field, the step is 20 % of the scale.
   */
  lemma FreshGradientIsFlat(material: int, kind: GradientType, scale: real, z0: real, rho0: real, s: State, earth: Earth, exp: real -> real)
    requires scale != 0.0
    ensures var m := GradientInitialise(material, kind, scale, z0, rho0, None);
            var r := GradientLocals(m, s, None, earth, exp);
            && r.locals.density == Density(m.gradient, 0.0, exp)
            && r.step == Abs(scale) * (GRADIENT_RESOLUTION / GRADIENT_MIN_PROJECTION)
            && r.locals.magnet == ZERO
            && r.state == s
  {
    var m := GradientInitialise(material, kind, scale, z0, rho0, None);
    assert Obliquity(ZERO, s.direction) == GRADIENT_MIN_PROJECTION;
  }
}
