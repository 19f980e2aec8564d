# PUMAS extensions in Dafny

This project models the core of the PUMAS extensions library (`src/pumas_extensions.c`).
That library adds several services on top of the PUMAS muon transport engine:

- **A per-context random stream**: an MT19937 Mersenne Twister with its seeding, its
  in-place buffer regeneration, its tempering and its scaling to a uniform draw.
- **An extended Monte Carlo state**: caches of the geodetic coordinates and of the
  local vertical, and their reset.
- **A tree of geometries**: push, reset and destroy over the tree, the recursive
  navigation that finds the medium at a position, and the generic medium callback.
- **Concrete geometries**:
  - an infinite medium;
  - the Earth, made of a topography stepper, a table of media per layer and a cached
    geomagnetic field, with its reset;
  - a convex polyhedron bounded by planar faces.
- **Concrete media**:
  - a uniform medium;
  - a medium with a linear or exponential density gradient along an axis or along the
    local vertical, with the altitude projector;
  - the global magnetic field added on top of both.
- **Coordinate points and vectors**: Cartesian, spherical and horizontal forms, each
  tagged with the unitary frame it is expressed in, and the frame changes and
  conversions between them. This includes the local east-north-up frame.
- **A tabulated reference flux**: interpolated in energy and in the cosine of the
  zenith angle.

Doubles are modelled as `real`. The C library's `sin`, `cos`, `sqrt`, `atan2`,
`log` and `exp` are abstract function parameters, as are the services of the
external libraries:

- the topography library (geodetic conversions, local vertical, stepper);
- the geomagnetic library (field snapshot);
- every user hook: geometry getters, reset and destroy hooks, and projectors.

References to the same medium are modelled by value identity. Frames carry an
`id` standing for their address, and frame tags are compared by that `id` alone,
as the source compares pointers (`Coordinates.SameTag`). Geometries are indices
into an arena, each daughter created after its mother.

Files and modules:

- `wrappers.dfy`: `Option`.
- `random.dfy` (`Random`): the random stream.
- `coordinates.dfy` (`Coordinates`): vectors, frames, coordinate conversions and
  transforms.
- `state.dfy` (`States`): the extended state.
- `media.dfy` (`Media`): the global field, uniform and gradient media, and the
  altitude projector.
- `geometry.dfy` (`Geometry`): the geometry tree, its navigation, the medium
  callback, the infinite geometry, and reset and destroy.
- `earth.dfy` (`Terrain`): the Earth geometry.
- `polyhedron.dfy` (`Polyhedra`): the polyhedron geometry.
- `flux.dfy` (`Flux`): the flux tabulation.

### Points worth knowing

- **The draw range.** A uniform draw lies in the closed interval [0, 1], not
  [0, 1). The scaling divides by 2^32 - 1, and the word `0x12dd9bb3` tempers to
  `0xffffffff` (`Random.UpperEndReached`).
- **Word width.** Words are `unsigned long`. They are modelled as 64-bit vectors,
  and every word the stream holds or returns is proved to fit in 32 bits.
- **Step semantics.**
  - A geometry that reports a medium with a step of at most 0 keeps that step: its
    daughters' distances are dropped when none of them claims the position
    (`Geometry.NonPositiveStepIgnoresDaughters`).
  - The infinite geometry always proposes step 0, meaning "no limit".
  - On an exit plane of a polyhedron (inside every face, and exactly on the plane
    of a face it is leaving), the polyhedron reports its medium with step DBL_MAX,
    not with the 1e-5 floor that applies to its other steps
    (`Polyhedra.OnExitPlane`). The model follows the code.
- **The Earth's local frame.** Its rotation has columns east, north and up, taken
  from the topography library at (azimuth, elevation) = (90, 0), (0, 0) and (0, 90).
- **The flux getter's signature.**
  - A charge of exactly 0 sums both components; any positive charge uses
    component 0 and any negative one uses component 1.
  - The header declares `pumas_flux_tabulation_get` with an extra argument. The
    definition in `src/pumas_extensions.c` takes four (tabulation, energy, cosine,
    charge), and the model follows the definition.

## Model

| member | source | states |
|---|---|---|
| Random.Initialise | src/pumas_extensions.c:59-74 | The seeded buffer holds 624 words that all fit in 32 bits. Word 0 is the seed masked to 32 bits, and every later word follows from its predecessor by the seeding recurrence. The index is 624, so the first draw regenerates the buffer. |
| Random.TwistedFits | src/pumas_extensions.c:94-109 | Regenerating a buffer of 32-bit words yields 32-bit words again, through the 397-ahead and wrap-around pairings. |
| Random.TwistLow | src/pumas_extensions.c:94-99 | The first in-place loop sets words 0..226 to the twist recurrence over the prior buffer and leaves words 227..623 as they were. |
| Random.TwistHigh | src/pumas_extensions.c:100-105 | The second in-place loop pairs each word with the new word 227 places behind. Words 0..622 end up as the reference regeneration and word 623 is still the prior one. |
| Random.Twist | src/pumas_extensions.c:94-109 | The three in-place steps produce exactly the reference regeneration `Twisted` at every index, with the last word paired with the new word 0. |
| Random.Temper | src/pumas_extensions.c:114-118 | Tempering a 32-bit word gives a 32-bit word. |
| Random.ScaleBounds | src/pumas_extensions.c:121 | The scaled output of any word lies in [0, 1]. |
| Random.Uniform01 | src/pumas_extensions.c:78-121 | Below index 623 a draw advances the index and keeps the buffer. Otherwise it regenerates the whole buffer and restarts at 0. The stream stays valid, and the value is the tempered word at the new index, scaled into [0, 1]. |
| Random.UpperEndReached | src/pumas_extensions.c:114-121 | The word 0x12dd9bb3 tempers to 0xffffffff and scales to exactly 1.0, so the upper end of the range is reachable. |
| States.StateExtendedReset | src/pumas_extensions.c:125-131 | The context is bound. The geodetic cache is marked stale and the vertical cache's limit is set before any distance. Position, direction and distance are untouched. |
| Coordinates.MovePoint | src/pumas_extensions.c:603-640 | The point is re-tagged with the target frame. For an absent or unitary target it denotes the same absolute point as before. |
| Coordinates.MoveVector | src/pumas_extensions.c:652-685 | The vector is re-tagged with the target frame. For an absent or unitary target it has the same absolute components as before. |
| Coordinates.CartesianPointTransform | src/pumas_extensions.c:643-649 | Re-tags with the target. When the point's tag has the target's address, the coordinates are kept unchanged, whatever that frame holds now. Otherwise the absolute point is preserved for an absent or unitary target. |
| Coordinates.CartesianVectorTransform | src/pumas_extensions.c:688-694 | The same as the point transform, for vectors. |
| Coordinates.RotateThenBack | src/pumas_extensions.c:608-636 | For a unitary rotation, applying the transposed rotation after the rotation is the identity. |
| Coordinates.RotateBackAndForth | src/pumas_extensions.c:608-636 | For a unitary rotation, applying the rotation after its transpose is the identity. |
| Coordinates.ShortCircuitIsExact | src/pumas_extensions.c:643-649 | Skipping the computation when the frames coincide loses nothing: transforming a point into its own unitary frame gives it back. |
| Coordinates.PointRoundTrip | src/pumas_extensions.c:603-649 | An absolute point moved into a unitary frame and back is unchanged. |
| Coordinates.VectorRoundTrip | src/pumas_extensions.c:652-694 | An absolute vector moved into a unitary frame and back is unchanged. |
| Coordinates.VectorIgnoresTranslation | src/pumas_extensions.c:652-694 | A vector transform depends only on the rotations and on whether the tags share an address: frames that differ in translation give the same result. |
| Coordinates.PointUsesTranslation | src/pumas_extensions.c:624-627 | A point transform does subtract the target's translation: the absolute origin lands at -t in a frame shifted by t. |
| Coordinates.SphericalFromHorizontal | src/pumas_extensions.c:734-741 | Norm and frame are kept. The polar angle and elevation are complementary, and so are the azimuthal angle and azimuth. |
| Coordinates.HorizontalFromSpherical | src/pumas_extensions.c:860-867 | The reverse swap keeps norm and frame, with the same complementary-angle relations. |
| Coordinates.AngleSwapsInverse | src/pumas_extensions.c:734-741 | The two swaps are inverse to each other in both orders. |
| Coordinates.CartesianFromSphericalLength | src/pumas_extensions.c:714-722 | The corrected spherical-to-Cartesian conversion gives a vector of squared length r^2 whenever sin^2 + cos^2 = 1 at both angles. |
| Coordinates.CartesianFromSphericalAsWrittenDropsRadius | src/pumas_extensions.c:721 | As written, the point at radius 2 on the polar axis converts to (0, 0, 1). The corrected conversion gives (0, 0, 2). |
| Coordinates.SphericalFromCartesian | src/pumas_extensions.c:773-788 | Within FLT_EPSILON of the polar axis the azimuthal angle is 0. |
| Coordinates.CartesianPointFromSphericalAsWritten | src/pumas_extensions.c:714-731 | As written, the public converter keeps the frame tag and the corrected x and y, and its z is the corrected z divided by the radius: the radius is dropped from z. |
| Coordinates.CartesianVectorFromSphericalAsWritten | src/pumas_extensions.c:764-770 | As written, the same for vectors: corrected x and y, z without the norm, frame kept. |
| Coordinates.CartesianVectorFromHorizontalAsWritten | src/pumas_extensions.c:744-761 | As written, keeps the frame, and equals the angle swap followed by the as-written spherical conversion. |
| Coordinates.PublicConvertersDropRadius | src/pumas_extensions.c:714-770 | The as-written public converters give the corrected result exactly when the radius (or norm) is 1 or the cosine of the polar angle is 0. |
| Coordinates.CartesianPointFromSpherical | src/pumas_extensions.c:725-731 | Corrected: keeps the frame tag, and the point's squared distance from the origin is r^2 whenever sin^2 + cos^2 = 1 at both angles. |
| Coordinates.CartesianVectorFromSpherical | src/pumas_extensions.c:764-770 | Corrected: keeps the frame tag, and the vector's squared length is the squared norm whenever sin^2 + cos^2 = 1 at both angles. |
| Coordinates.CartesianVectorFromHorizontal | src/pumas_extensions.c:744-761 | Corrected: keeps the frame, and equals the angle swap followed by the corrected spherical conversion. |
| Coordinates.SphericalVectorFromHorizontal | src/pumas_extensions.c:820-826 | The public angle swap keeps norm and frame, and makes the angles complementary. |
| Coordinates.HorizontalVectorFromSpherical | src/pumas_extensions.c:889-895 | The public reverse swap keeps norm and frame, and makes the angles complementary. |
| Coordinates.PublicAngleConvertersInverse | src/pumas_extensions.c:820-826 | The public spherical and horizontal vector converters undo each other in both orders. |
| Coordinates.SphericalPointFromCartesian | src/pumas_extensions.c:791-797 | The spherical point carries the Cartesian point's frame. |
| Coordinates.SphericalVectorFromCartesian | src/pumas_extensions.c:811-817 | The spherical vector carries the Cartesian vector's frame. |
| Coordinates.HorizontalVectorFromCartesian | src/pumas_extensions.c:870-886 | Keeps the frame, and equals the spherical conversion followed by the angle swap. |
| Coordinates.HorizontalVectorTransformAsWritten | src/pumas_extensions.c:898-909 | As written, the result is tagged with the target frame. The frame it undoes is the temporary's indeterminate tag. |
| Coordinates.HorizontalVectorTransform | src/pumas_extensions.c:898-909 | Keeps the angles and takes the target tag when the vector's tag has the target's address. Otherwise it equals converting with the corrected Cartesian converter, transforming, and converting back. |
| Coordinates.SphericalPointTransformAsWritten | src/pumas_extensions.c:912-923 | As written, the result is tagged with the target frame, and the temporary's tag is indeterminate. |
| Coordinates.SphericalPointTransform | src/pumas_extensions.c:912-923 | Keeps the coordinates and takes the target tag when the point's tag has the target's address. Otherwise it equals the corrected Cartesian conversion, the Cartesian point transform, and the conversion back. |
| Coordinates.SphericalVectorTransformAsWritten | src/pumas_extensions.c:926-937 | As written, the result is tagged with the target frame, and the temporary's tag is indeterminate. |
| Coordinates.SphericalVectorTransform | src/pumas_extensions.c:926-937 | Keeps the components and takes the target tag when the vector's tag has the target's address. Otherwise it equals the corrected Cartesian conversion, the Cartesian vector transform, and the conversion back. |
| Coordinates.HorizontalTransformReadsStaleFrame | src/pumas_extensions.c:898-909 | The zenith of a frame that swaps x and z should reach the absolute frame at elevation 0. With the temporary's tag NULL, as written, it keeps elevation pi/2. |
| Coordinates.SphericalPointTransformReadsStaleFrame | src/pumas_extensions.c:912-923 | The unit polar point of the swapped frame should reach polar angle pi/2. As written, with a NULL stale tag, it stays at 0. |
| Coordinates.SphericalVectorTransformReadsStaleFrame | src/pumas_extensions.c:926-937 | The same counterexample for a spherical vector. |
| Coordinates.FrameInitialiseLocal | src/pumas_extensions.c:940-968 | The translation is the origin. The rotation's columns are the local east, north and up vectors of the topography library at the geodetic point. |
| Media.AddGlobalMagnet | src/pumas_extensions.c:285-303 | Without a global hook the field is untouched and the step is 0. With one, the hook's field is added and its step returned. |
| Media.UniformInitialise | src/pumas_extensions.c:319-332 | Material and density are stored. The field is the given one, or zero for NULL. |
| Media.UniformLocals | src/pumas_extensions.c:307-316 | The density is the stored one. The field is the stored one, plus the global field when a hook is present, whose step is returned (0 otherwise). |
| Media.UniformRoundTrip | src/pumas_extensions.c:307-332 | Without a global hook, a uniform medium reports exactly what it was initialised with, and step 0. |
| Media.GradientInitialise | src/pumas_extensions.c:378-402 | The parameters are stored, there is no projector, the axis is null, and a NULL field gives zero. |
| Media.ProjectAltitude | src/pumas_extensions.c:405-432 | Fills the geodetic cache only when it is stale. Refreshes the vertical only once the distance reaches the cache limit, then extends that limit by 1 km. Copies the vertical to the axis and returns the altitude. Nothing else in the state changes. |
| Media.ProjectAltitudeIdempotent | src/pumas_extensions.c:405-432 | A second projection at the state left by the first returns the same result and changes nothing. |
| Media.ProjectAltitudeAfterReset | src/pumas_extensions.c:405-432 | After a state reset, the projection recomputes both the altitude and the vertical from the position. |
| Media.Project | src/pumas_extensions.c:350-355 | Without a projector, the coordinate is the position along the stored axis and nothing changes. With the altitude projector, it is that projector's result. |
| Media.Obliquity | src/pumas_extensions.c:357-360 | The obliquity is abs(u . v), floored at 0.05. |
| Media.GradientStep | src/pumas_extensions.c:372 | The step is non-negative, positive when the scale is non-zero, and at most 20 % of the scale. |
| Media.GradientLocals | src/pumas_extensions.c:336-375 | The density follows the gradient law at the projected coordinate, and the field is the medium's plus the global one. The step is the gradient step along the updated axis, replaced by the hook's step when that is positive and smaller. The axis and state are updated as the projector leaves them. |
| Media.DensityAtReference | src/pumas_extensions.c:364-370 | At the reference coordinate both laws give the reference density. |
| Media.LinearDensityIncreases | src/pumas_extensions.c:364-366 | With a positive scale and density, the linear law strictly increases along the axis. |
| Media.FreshGradientIsFlat | src/pumas_extensions.c:336-402 | A freshly initialised gradient medium without a global field has the density of the law at 0, no field, the state untouched, and a step of 20 % of the scale. |
| Geometry.Push | src/pumas_extensions.c:189-201 | The daughter's mother is set. She is appended as the last daughter. The tree stays well formed, and no other node changes. |
| Geometry.Navigate | src/pumas_extensions.c:210-261 | The navigation ends in a geometry of the tree, and never with the transparent medium. A medium it returns is the one its final geometry's getter reports. When it cannot climb, it ends at or below its start. |
| Geometry.ScanDaughters | src/pumas_extensions.c:228-252 | A claim is a non-transparent medium that a strict descendant's getter reports. Without a claim, the step never increases, and it changes only to a positive value. |
| Geometry.ScanClaims | src/pumas_extensions.c:235-242 | The loop ends with a claim exactly when some probed daughter's navigation ends with a medium. Excluded daughters are skipped. |
| Geometry.ScanFirstClaim | src/pumas_extensions.c:235-242 | The claim is that of the first probed daughter whose navigation ends with a medium. |
| Geometry.ScanFallbackStep | src/pumas_extensions.c:238-252 | Without a claim, the step is at most the geometry's own step and at most every positive daughter step. |
| Geometry.ScanFallbackAttained | src/pumas_extensions.c:238-252 | Without a claim, the step is the geometry's own step or some probed daughter's: with ScanFallbackStep, the least positive one. |
| Geometry.NonPositiveStepIgnoresDaughters | src/pumas_extensions.c:224-252 | A geometry reporting a medium with a step of at most 0 keeps its medium and step when no daughter claims the position. |
| Geometry.InfiniteGet | src/pumas_extensions.c:435-446 | The infinite geometry reports its medium and step 0. |
| Geometry.WorldAndBoxNavigation | src/pumas_extensions.c:210-261 | In an infinite world holding a box: inside the box the navigation ends in the box with the box's step; outside, in the world with step 0; leaving the box, it climbs to the world. |
| Geometry.GeometryMediumAsWritten | src/pumas_extensions.c:265-282 | As written, without any geometry, the medium returned is the uninitialised `tmp`. |
| Geometry.GeometryMedium | src/pumas_extensions.c:265-282 | Starts from the current geometry or else the top one, and records where the navigation ends. Invalidates the geodetic cache, never returns the transparent medium, and without any geometry returns no medium with the step untouched. |
| Geometry.GeometryMediumWithoutGeometry | src/pumas_extensions.c:276-279 | With neither a current nor a top geometry, the as-written callback hands back whatever `tmp` held, while the corrected one returns no medium. |
| Geometry.GeometryMediumAgrees | src/pumas_extensions.c:265-282 | Whenever a geometry is present, the as-written and corrected callbacks agree. |
| Geometry.WalkCharacterised | src/pumas_extensions.c:150-175 | The recursive reset and destroy walks call the hook of every node of the subtree that has one, and of no other node, once each. A pre-order walk starts with the root and a post-order walk ends with it. |
| Geometry.WalkDaughtersDistinct | src/pumas_extensions.c:155-156 | Walking the daughter list calls no node twice. |
| Geometry.GeometryReset | src/pumas_extensions.c:160-166 | The current geometry becomes the top one. The reset hooks of the top's subtree are called in pre-order, and none are called without a top. |
| Geometry.GeometryDestroy | src/pumas_extensions.c:178-186 | Both the top and the current geometry are cleared. The destroy hooks of the top's subtree are called in post-order, and none are called without a top. |
| Geometry.ResetAndDestroyReachTheTree | src/pumas_extensions.c:150-186 | Reset and destroy call every hooked node of the tree exactly once: reset with the top first, destroy with the top last. |
| Geometry.ResetThenNavigate | src/pumas_extensions.c:160-166 | After a reset, the next medium lookup navigates from the top geometry. |
| Polyhedra.ScanFacesCharacterised | src/pumas_extensions.c:564-580 | After the face loop, "inside" holds exactly when the position is on the inner side of every face. The exit distance is the least crossing over exiting faces, capped at DBL_MAX; the entry distance is the greatest over entering faces, floored at -DBL_MAX. Grazing faces are ignored. |
| Polyhedra.Classify | src/pumas_extensions.c:584-593 | The step is at least STEP_MIN. Inside with an exit ahead: the polyhedron's medium and the exit distance. Outside with an entry ahead: no medium and the entry distance. Otherwise: DBL_MAX, with the medium exactly when on an exit plane. |
| Polyhedra.PolyhedronGet | src/pumas_extensions.c:548-599 | The step is at least STEP_MIN, and any medium reported is the polyhedron's. |
| Polyhedra.BackwardReversesDirection | src/pumas_extensions.c:558-562 | Backward mode is forward mode along the reversed direction. |
| Polyhedra.InsideStepStopsAtExit | src/pumas_extensions.c:576-586 | Inside, the medium is the polyhedron's, and the step is STEP_MIN or at most every exiting face's crossing distance. |
| Polyhedra.OutsideGivesNoMedium | src/pumas_extensions.c:571-593 | A position outside some face gets no medium, unless it lies on an exit plane. |
| Polyhedra.ExitAhead | src/pumas_extensions.c:571-577 | Inside a face, an exiting crossing is never behind the position. |
| Polyhedra.OnExitPlane | src/pumas_extensions.c:590-593 | Inside every face and on an exiting face's plane, the polyhedron's medium is reported with step DBL_MAX. |
| Terrain.EarthGet | src/pumas_extensions.c:449-479 | The step is the stepper's, and the geodetic cache is filled from it. With several layers, the medium is that of the current layer when it exists and a surface lies above. With one layer, it is the first medium, under the ground. Otherwise there is no medium. |
| Terrain.EarthGetFeedsProjection | src/pumas_extensions.c:458-461 | The cache the Earth getter fills is what a later altitude projection reads: its altitude is the stepper's. |
| Terrain.LocalFrame | src/pumas_extensions.c:499-502 | The magnet hook's local frame is translated to the position. |
| Terrain.EarthMagnet | src/pumas_extensions.c:482-526 | Before the cache limit, the cached field is returned. From it on, the snapshot's east-north-up field is combined with the local east, north and up vectors into absolute components, cached, and valid for another 1 km. The step is always 1 km. |
| Terrain.EarthMagnetCached | src/pumas_extensions.c:488-489 | A second sample at the same state reads the cache and returns the same outcome. |
| Terrain.EarthReset | src/pumas_extensions.c:529-534 | The field cache is zeroed with its limit before any distance. Media and layers are kept. |
| Terrain.EarthResetResamples | src/pumas_extensions.c:529-534 | After a reset, the first sample at any non-negative distance is fresh, and valid for 1 km beyond it. |
| Terrain.UniformUnderEarthField | src/pumas_extensions.c:307-316 | A uniform medium under the Earth's magnet hook reports the hook's 1 km step. |
| Flux.Trunc | src/pumas_extensions.c:980 | The C cast `(int)` truncates toward zero. |
| Flux.Locate | src/pumas_extensions.c:977-982 | There is a cell exactly when the coordinate lies in [0, n]. Its nodes are adjacent and in range, and its fraction is in [0, 1). Away from the half-bin margins, lower node + 0.5 + fraction is the coordinate; at the margins the fraction is 0. |
| Flux.Offset | src/pumas_extensions.c:993-1004 | The node offsets fall inside the data of a table with two values per node. |
| Flux.LerpBetween | src/pumas_extensions.c:1013-1018 | A linear interpolation with a fraction in [0, 1] lies between its two ends. |
| Flux.Cells | src/pumas_extensions.c:975-991 | A lookup has cells exactly when both scaled coordinates lie in range, and then every node index is in the grid and both fractions are in [0, 1). |
| Flux.FluxTabulationGet | src/pumas_extensions.c:970-1023 | Outside the table the flux is 0. Inside, it is component 0 for a non-negative charge plus component 1 for a non-positive one. |
| Flux.ChargeSign | src/pumas_extensions.c:1009-1010 | Only the sign of the charge matters, and a neutral lookup is the sum of the two signs. |
| Flux.ComponentAtNode | src/pumas_extensions.c:1013-1020 | At a grid node, both interpolation branches return the tabulated value when exp undoes log on positives. |
| Flux.LinearComponentBounded | src/pumas_extensions.c:1013-1018 | When the linear branch is taken, the component lies between bounds of the four corner values. |
| Flux.OutsideEnergyRange | src/pumas_extensions.c:978 | An energy past the top of the table gives flux 0. |

## Left out

- Error forwarding and the error accessors (lines 9-56) are left out: they only
  pass messages to a user handler.
- The geometry accessors `pumas_geometry_get` and `pumas_geometry_set` (lines
  135-147) are left out: they only read and write one reference.
- The per-geometry debug callback inside `geometry_navigate` (lines 220-226) is
  left out: it observes and changes nothing.
- NULL `medium_p` and `step_p` outputs are not modelled. Every getter and the
  navigation are modelled with both outputs present.
- `pumas_geometry_earth_destroy` (lines 537-545) is not modelled: it only releases
  memory. Releasing memory in general is not modelled, only the order of the
  destroy hooks.
- Floating-point rounding, NaN and infinities are not modelled, and neither are
  single-precision table values: doubles and floats are reals. DBL_MAX,
  FLT_EPSILON and `0.5 * M_PI` are their exact double values.
- Frames are immutable snapshots. A tag holds the frame's contents as they were
  when the object was tagged. The source reads the frame through its pointer, so
  after a frame is changed in place (for example by initialising it again at a
  new origin), the source undoes its new contents while the model undoes the
  contents recorded in the tag. The same-address test itself compares `id`s, as
  the source compares pointers.
- `cartesian_from_geodetic`, `pumas_coordinates_cartesian_point_from_geodetic`,
  `pumas_coordinates_spherical_point_from_geodetic`,
  `pumas_coordinates_geodetic_point_from_cartesian` and
  `pumas_coordinates_geodetic_point_from_spherical` (lines 697-711, 800-808 and
  829-857) are left out. They only forward to the topography library's conversions.
  Also left out: the geodetic-from-spherical converter passes the spherical point
  rather than its Cartesian conversion (line 855).
- Geometry getters are a parameter `get` of `Geometry.Navigate`. The infinite,
  Earth and polyhedron getters are modelled separately and not plugged into it, so
  the geodetic cache the Earth getter fills is not threaded through a navigation.
- User projectors other than the altitude projector are not modelled, and neither
  are user getters or hooks beyond their flags.
- Geometry.Push: requires the daughter to be a root created after its mother, which
  is the order trees are built in. The source does not check this.
- Media.GradientLocals: requires a non-zero scale (the source's `lambda`). The source then divides
  by zero and produces an infinite or NaN density. Media.Density has the same
  precondition.
- Flux.FluxTabulationGet: requires a usable table: at least one bin per axis,
  non-degenerate energy and cosine ranges, and every node's values present. The
  source divides by the ranges and reads the data unchecked.
- Random.Temper: states only that a 32-bit word stays 32-bit; the value of the
  tempering is its definition.
- Random.Scale: the scaling is exact over the reals. The double product
  `y * (1.0 / 4294967295.0)` is not rounded.
- Coordinates.SphericalFromCartesian: states only the polar-axis convention. The
  angles are given by the abstract `atan2` and `sqrt`.
- Coordinates.SphericalPointFromCartesian and Coordinates.SphericalVectorFromCartesian:
  their contracts state only the frame tag. Their angles come from the abstract
  `atan2` and `sqrt`, and no inverse with the Cartesian conversion is proved.

## Findings

| source | as written | input that shows it | evidently intended | confidence | as-written member | corrected member |
|---|---|---|---|---|---|---|
| src/pumas_extensions.c:721 | `cartesian_from_spherical` sets z to cos(theta), without the radius | r = 2, theta = 0, phi = 0 gives (0, 0, 1) | z = r cos(theta), giving (0, 0, 2) | not executed | Coordinates.CartesianFromSphericalAsWritten and the public converters Coordinates.CartesianPointFromSphericalAsWritten, Coordinates.CartesianVectorFromSphericalAsWritten and Coordinates.CartesianVectorFromHorizontalAsWritten (shown by Coordinates.CartesianFromSphericalAsWrittenDropsRadius and Coordinates.PublicConvertersDropRadius) | Coordinates.CartesianFromSpherical, Coordinates.CartesianPointFromSpherical, Coordinates.CartesianVectorFromSpherical and Coordinates.CartesianVectorFromHorizontal (Coordinates.CartesianFromSphericalLength) |
| src/pumas_extensions.c:276-279 | `pumas_geometry_medium` with neither a current nor a top geometry returns the uninitialised local `tmp` as the medium | a context whose geometry was never set, or was destroyed | no medium (`tmp` initialised to NULL) | not executed | Geometry.GeometryMediumAsWritten (shown by Geometry.GeometryMediumWithoutGeometry) | Geometry.GeometryMedium |
| src/pumas_extensions.c:898-937 | the horizontal-vector, spherical-point and spherical-vector transforms build a Cartesian temporary whose frame tag is never set, and the Cartesian transform reads that tag as the frame to undo | the zenith of a frame swapping x and z, taken to the absolute frame, with the stale tag NULL: elevation pi/2 instead of 0 | undo the object's own frame; the corrected transforms also use the corrected conversion of the row for line 721, so they correct both rows together | not executed | Coordinates.HorizontalVectorTransformAsWritten, Coordinates.SphericalPointTransformAsWritten, Coordinates.SphericalVectorTransformAsWritten (shown by Coordinates.HorizontalTransformReadsStaleFrame and the two other ReadsStaleFrame lemmas) | Coordinates.HorizontalVectorTransform, Coordinates.SphericalPointTransform, Coordinates.SphericalVectorTransform |
