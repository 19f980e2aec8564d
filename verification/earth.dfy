/**
 * The Earth geometry: a topography stepper that reports the geodetic position,
 * the ground elevation and the layer index, a table of media indexed by layer,
 * and a cached geomagnetic field that is resampled at most once per kilometre of
 * travelled distance.
 */
module Terrain {
  import opened Wrappers
  import opened Coordinates
  import opened States
  import opened Media

  /** The geomagnetic cache is valid for this distance after each sample (1 km). */
  const GEOMAGNET_UPDATE_DISTANCE: real := 1000.0

  /** The last sampled field (absolute frame) and the distance until which it holds. */
  datatype MagnetCache = MagnetCache(distance: real, last: Vec3)

  /** The part of `pumas_geometry_earth` the model reads: the media table and the magnet cache. */
  datatype EarthGeometry = EarthGeometry(media: Option<seq<Option<Medium>>>, layers: int, magnet: MagnetCache)

  /** The table of media holds at least `n_layers` entries, and at least one. */
  predicate EarthWellFormed(e: EarthGeometry) {
    e.media.Some? ==> 1 <= |e.media.value| && e.layers <= |e.media.value|
  }

  /**
   * What the topography stepper reports for a position: the geodetic point, the
   * elevations of the two nearest surfaces (DBL_MAX for none), its proposed step
   * and the index of the layer the position is in (negative outside).
   */
  datatype StepperSample = StepperSample(geodetic: GeodeticPoint, elevation0: real, elevation1: real, step: real, layer: int)

  /** The outcome of a getter that also fills the geodetic cache. */
  datatype EarthProbe = EarthProbe(probe: Probe, state: State)

  /**
   * `pumas_geometry_earth_get`. The step is the stepper's and the geodetic cache is
   * filled from it. With several layers, the medium is that of the layer the
   * position is in, provided the layer exists and a surface lies above; with a
   * single layer, it is the first medium below the ground elevation. Without a
   * media table or outside every layer there is no medium.
   */
  function EarthGet(e: EarthGeometry, s: State, stepper: Vec3 -> StepperSample): (r: EarthProbe)
    requires EarthWellFormed(e)
    ensures var t := stepper(s.position);
            && r.probe.step == t.step
            && r.state == s.(geodetic := GeodeticCache(true, t.geodetic))
    ensures r.probe.medium.Some? ==>
              e.media.Some? && exists i :: 0 <= i < |e.media.value| && e.media.value[i] == r.probe.medium
    ensures var t := stepper(s.position);
            e.media.Some? && e.layers > 1 ==>
              r.probe.medium == if 0 <= t.layer < e.layers && t.elevation1 != DBL_MAX then e.media.value[t.layer] else None
    ensures var t := stepper(s.position);
            e.media.Some? && e.layers <= 1 ==>
              r.probe.medium == if t.layer >= 0 && t.geodetic.altitude < t.elevation0 then e.media.value[0] else None
    ensures e.media.None? ==> r.probe.medium.None?
  {
    var t := stepper(s.position);
    var medium :=
      if t.layer >= 0 && e.media.Some? then
        if e.layers > 1 then
          if t.layer < e.layers && t.elevation1 != DBL_MAX then e.media.value[t.layer] else None
        else
          if t.geodetic.altitude < t.elevation0 then e.media.value[0] else None
      else None;
    EarthProbe(Probe(medium, t.step), s.(geodetic := GeodeticCache(true, t.geodetic)))
  }

  /** The Earth getter leaves a cache that a later altitude projection reads as is. */
  lemma EarthGetFeedsProjection(e: EarthGeometry, s: State, stepper: Vec3 -> StepperSample, earth: Earth)
    requires EarthWellFormed(e)
    ensures var r := EarthGet(e, s, stepper);
            ProjectAltitude(r.state, earth).z == stepper(s.position).geodetic.altitude
  {
  }

  /** The outcome of the magnet hook: the field, the proposed step and the updated cache. */
  datatype MagnetOutcome = MagnetOutcome(field: Vec3, step: real, cache: MagnetCache)

  /** The local east-north-up frame at a position, as the magnet hook builds it. */
  function LocalFrame(position: Vec3, earth: Earth): (f: Frame)
    ensures f.translation == position
  {
    FrameInitialiseLocal(0, CartesianPoint(position, None), earth.toGeodetic(position), earth.horizontalToEcef)
  }

  /**
   * `pumas_geometry_earth_magnet`. Before the cache limit the cached field is
   * returned. From it on, the field is sampled in the local east-north-up frame,
   * turned into absolute components, cached and declared valid for another 1 km.
   * The proposed step is always 1 km.
   */
  function EarthMagnet(cache: MagnetCache, s: State, earth: Earth, snapshot: GeodeticPoint -> Vec3): (r: MagnetOutcome)
    ensures r.step == GEOMAGNET_UPDATE_DISTANCE
    ensures s.distance < cache.distance ==> r.field == cache.last && r.cache == cache
    ensures s.distance >= cache.distance ==>
              var g := earth.toGeodetic(s.position);
              var enu := snapshot(g);
              && r.field == Combination(
                   earth.horizontalToEcef(g.latitude, g.longitude, 90.0, 0.0),
                   earth.horizontalToEcef(g.latitude, g.longitude, 0.0, 0.0),
                   earth.horizontalToEcef(g.latitude, g.longitude, 0.0, 90.0),
                   enu)
              && r.cache == MagnetCache(s.distance + GEOMAGNET_UPDATE_DISTANCE, r.field)
  {
    if s.distance < cache.distance then MagnetOutcome(cache.last, GEOMAGNET_UPDATE_DISTANCE, cache)
    else
      var g := earth.toGeodetic(s.position);
      var frame := LocalFrame(s.position, earth);
      var local := CartesianVector(snapshot(g), Some(frame));
      var field := CartesianVectorTransform(local, None).v;
      MagnetOutcome(field, GEOMAGNET_UPDATE_DISTANCE, MagnetCache(s.distance + GEOMAGNET_UPDATE_DISTANCE, field))
  }

  /** The sample the magnet hook hands to `add_global_magnet`. */
  function MagnetSampleOf(r: MagnetOutcome): MagnetSample {
    MagnetSample(r.field, r.step)
  }

  /** Sampling twice at the same state gives the same field, and the second reads the cache. */
  lemma EarthMagnetCached(cache: MagnetCache, s: State, earth: Earth, snapshot: GeodeticPoint -> Vec3)
    ensures var r := EarthMagnet(cache, s, earth, snapshot);
            EarthMagnet(r.cache, s, earth, snapshot) == r
  {
  }

  /** `pumas_geometry_earth_reset`: the cache is emptied and its limit set before any distance. */
  function EarthReset(e: EarthGeometry): (r: EarthGeometry)
    ensures r.magnet.distance < 0.0 && r.magnet.last == ZERO
    ensures r.media == e.media && r.layers == e.layers
  {
    e.(magnet := MagnetCache(-1.0, ZERO))
  }

  /** After a reset, the first sample at any non-negative distance is fresh. */
  lemma EarthResetResamples(e: EarthGeometry, s: State, earth: Earth, snapshot: GeodeticPoint -> Vec3)
    requires s.distance >= 0.0
    ensures var r := EarthMagnet(EarthReset(e).magnet, s, earth, snapshot);
            r.cache.distance == s.distance + GEOMAGNET_UPDATE_DISTANCE
            && r.field == CartesianVectorTransform(CartesianVector(snapshot(earth.toGeodetic(s.position)), Some(LocalFrame(s.position, earth))), None).v
  {
  }

  /**
   * With the Earth's magnet hook as the global field, a uniform medium reports the
   * hook's 1 km step.
   */
  lemma UniformUnderEarthField(m: UniformMedium, cache: MagnetCache, s: State, earth: Earth, snapshot: GeodeticPoint -> Vec3)
    ensures UniformLocals(m, Some(MagnetSampleOf(EarthMagnet(cache, s, earth, snapshot)))).step == GEOMAGNET_UPDATE_DISTANCE
  {
  }
}
