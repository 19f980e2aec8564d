/**
 * Coordinate points and vectors tagged with the unitary transform (rotation and
 * translation) they are expressed in, and the frame changes between them. A
 * `None` tag is the absolute (ECEF-like) basis. The source tags an object with a
 * pointer to its frame and compares tags by address; here a frame carries an `id`
 * standing for that address, and tags are compared by `id` alone (`SameTag`). A
 * tag holds the frame's contents as they were when the object was tagged.
 *
 * The trigonometric conversions are stated over an abstract `Trig` record: only
 * the formulas' shapes are modelled, never the floating-point values.
 */
module Coordinates {
  import opened Wrappers

  /** `0.5 * M_PI` in double precision. */
  const HALF_PI: real := 1.5707963267948965579989817342720925807952880859375
  /** FLT_EPSILON, 2^-23. */
  const FLT_EPSILON: real := 0.00000011920928955078125
  /** DBL_MAX, the largest finite double, exactly. */
  const DBL_MAX: real := 179769313486231570814527423731704356798070567525844996598917476803157260780028538760589558632766878171540458953514382464234321326889464182768467546703537516986049910576551282076245490090389328944075868508455133942304583236903222948165808559332123348274797826204144723168738177180919299881250404026184124858368.0

  datatype Vec3 = Vec3(x: real, y: real, z: real)

  const ZERO := Vec3(0.0, 0.0, 0.0)

  function Add(a: Vec3, b: Vec3): Vec3 {
    Vec3(a.x + b.x, a.y + b.y, a.z + b.z)
  }

  function Sub(a: Vec3, b: Vec3): Vec3 {
    Vec3(a.x - b.x, a.y - b.y, a.z - b.z)
  }

  function Neg(a: Vec3): Vec3 {
    Vec3(-a.x, -a.y, -a.z)
  }

  function Dot(a: Vec3, b: Vec3): real {
    a.x * b.x + a.y * b.y + a.z * b.z
  }

  function Abs(x: real): real {
    if x < 0.0 then -x else x
  }

  /** A 3x3 matrix by rows: `rotation[i][j]` is component `j` of row `i`. */
  datatype Mat3 = Mat3(r0: Vec3, r1: Vec3, r2: Vec3)

  function Col0(m: Mat3): Vec3 { Vec3(m.r0.x, m.r1.x, m.r2.x) }
  function Col1(m: Mat3): Vec3 { Vec3(m.r0.y, m.r1.y, m.r2.y) }
  function Col2(m: Mat3): Vec3 { Vec3(m.r0.z, m.r1.z, m.r2.z) }

  /** `rotation * v`: from frame coordinates to absolute orientation. */
  function Rotate(m: Mat3, v: Vec3): Vec3 {
    Vec3(Dot(m.r0, v), Dot(m.r1, v), Dot(m.r2, v))
  }

  /** `transpose(rotation) * v`: from absolute orientation to frame coordinates. */
  function RotateBack(m: Mat3, v: Vec3): Vec3 {
    Vec3(Dot(Col0(m), v), Dot(Col1(m), v), Dot(Col2(m), v))
  }

  predicate Orthonormal(a: Vec3, b: Vec3, c: Vec3) {
    && Dot(a, a) == 1.0 && Dot(b, b) == 1.0 && Dot(c, c) == 1.0
    && Dot(a, b) == 0.0 && Dot(a, c) == 0.0 && Dot(b, c) == 0.0
  }

  /** A unitary rotation: both its rows and its columns are orthonormal. */
  predicate Unitary(m: Mat3) {
    Orthonormal(m.r0, m.r1, m.r2) && Orthonormal(Col0(m), Col1(m), Col2(m))
  }

  /** A unitary transformation; `id` stands for the structure's address. */
  datatype Frame = Frame(id: nat, translation: Vec3, rotation: Mat3)

  /**
   * The source's pointer test `self->frame == frame`: both NULL, or the same
   * address, whatever the frame holds now.
   */
  predicate SameTag(a: Option<Frame>, b: Option<Frame>) {
    if a.Some? && b.Some? then a.value.id == b.value.id else a.None? && b.None?
  }

  datatype CartesianPoint = CartesianPoint(r: Vec3, frame: Option<Frame>)
  datatype CartesianVector = CartesianVector(v: Vec3, frame: Option<Frame>)
  datatype SphericalPoint = SphericalPoint(r: real, theta: real, phi: real, frame: Option<Frame>)
  datatype SphericalVector = SphericalVector(norm: real, theta: real, phi: real, frame: Option<Frame>)
  datatype HorizontalVector = HorizontalVector(norm: real, elevation: real, azimuth: real, frame: Option<Frame>)
  datatype GeodeticPoint = GeodeticPoint(latitude: real, longitude: real, altitude: real)

  /** Absolute coordinates of a point given in frame `f`. */
  function PointToAbsolute(r: Vec3, f: Option<Frame>): Vec3 {
    if f.Some? then Add(f.value.translation, Rotate(f.value.rotation, r)) else r
  }

  /** Coordinates in frame `f` of an absolute point. */
  function PointToFrame(r: Vec3, f: Option<Frame>): Vec3 {
    if f.Some? then RotateBack(f.value.rotation, Sub(r, f.value.translation)) else r
  }

  /** Absolute components of a vector given in frame `f`: rotation only. */
  function VectorToAbsolute(v: Vec3, f: Option<Frame>): Vec3 {
    if f.Some? then Rotate(f.value.rotation, v) else v
  }

  /** Components in frame `f` of an absolute vector: rotation only. */
  function VectorToFrame(v: Vec3, f: Option<Frame>): Vec3 {
    if f.Some? then RotateBack(f.value.rotation, v) else v
  }

  /**
   * `cartesian_point_transform`: undo the point's own frame, apply the target's,
   * re-tag. It always computes, even when the two frames are the same.
   */
  function MovePoint(p: CartesianPoint, target: Option<Frame>): (q: CartesianPoint)
    ensures q.frame == target
    ensures (target.None? || Unitary(target.value.rotation)) ==> PointToAbsolute(q.r, target) == PointToAbsolute(p.r, p.frame)
  {
    var q := CartesianPoint(PointToFrame(PointToAbsolute(p.r, p.frame), target), target);
    if target.Some? && Unitary(target.value.rotation) then
      PointBackAndForth(PointToAbsolute(p.r, p.frame), target.value);
      q
    else
      q
  }

  /** `cartesian_vector_transform`: the same as `MovePoint` without translations. */
  function MoveVector(u: CartesianVector, target: Option<Frame>): (w: CartesianVector)
    ensures w.frame == target
    ensures (target.None? || Unitary(target.value.rotation)) ==> VectorToAbsolute(w.v, target) == VectorToAbsolute(u.v, u.frame)
  {
    var w := CartesianVector(VectorToFrame(VectorToAbsolute(u.v, u.frame), target), target);
    if target.Some? && Unitary(target.value.rotation) then
      RotateBackAndForth(target.value.rotation, VectorToAbsolute(u.v, u.frame));
      w
    else
      w
  }

  /**
   * `pumas_coordinates_cartesian_point_transform`. When the point's tag is the
   * target's address, the coordinates are kept as they are, whatever the frame at
   * that address now holds.
   */
  function CartesianPointTransform(p: CartesianPoint, target: Option<Frame>): (q: CartesianPoint)
    ensures q.frame == target
    ensures SameTag(p.frame, target) ==> q.r == p.r
    ensures p.frame == target ==> q == p
    ensures !SameTag(p.frame, target) && (target.None? || Unitary(target.value.rotation))
            ==> PointToAbsolute(q.r, target) == PointToAbsolute(p.r, p.frame)
  {
    if SameTag(p.frame, target) then p.(frame := target) else MovePoint(p, target)
  }

  /** `pumas_coordinates_cartesian_vector_transform`. */
  function CartesianVectorTransform(u: CartesianVector, target: Option<Frame>): (w: CartesianVector)
    ensures w.frame == target
    ensures SameTag(u.frame, target) ==> w.v == u.v
    ensures u.frame == target ==> w == u
    ensures !SameTag(u.frame, target) && (target.None? || Unitary(target.value.rotation))
            ==> VectorToAbsolute(w.v, target) == VectorToAbsolute(u.v, u.frame)
  {
    if SameTag(u.frame, target) then u.(frame := target) else MoveVector(u, target)
  }

  /** `v.x * a + v.y * b + v.z * c`. */
  function Combination(a: Vec3, b: Vec3, c: Vec3, v: Vec3): Vec3 {
    Vec3(a.x * v.x + b.x * v.y + c.x * v.z,
         a.y * v.x + b.y * v.y + c.y * v.z,
         a.z * v.x + b.z * v.y + c.z * v.z)
  }

  lemma DotCombination(d: Vec3, a: Vec3, b: Vec3, c: Vec3, v: Vec3)
    ensures Dot(d, Combination(a, b, c, v)) == Dot(d, a) * v.x + Dot(d, b) * v.y + Dot(d, c) * v.z
  {
  }

  /** With a unitary rotation, `RotateBack` undoes `Rotate`: columns are orthonormal. */
  lemma RotateThenBack(m: Mat3, v: Vec3)
    requires Unitary(m)
    ensures RotateBack(m, Rotate(m, v)) == v
  {
    var c0, c1, c2 := Col0(m), Col1(m), Col2(m);
    assert Rotate(m, v) == Combination(c0, c1, c2, v);
    DotCombination(c0, c0, c1, c2, v);
    DotCombination(c1, c0, c1, c2, v);
    DotCombination(c2, c0, c1, c2, v);
  }

  /** With a unitary rotation, `Rotate` undoes `RotateBack`: rows are orthonormal. */
  lemma RotateBackAndForth(m: Mat3, v: Vec3)
    requires Unitary(m)
    ensures Rotate(m, RotateBack(m, v)) == v
  {
    assert RotateBack(m, v) == Combination(m.r0, m.r1, m.r2, v);
    DotCombination(m.r0, m.r0, m.r1, m.r2, v);
    DotCombination(m.r1, m.r0, m.r1, m.r2, v);
    DotCombination(m.r2, m.r0, m.r1, m.r2, v);
  }

  lemma PointBackAndForth(a: Vec3, f: Frame)
    requires Unitary(f.rotation)
    ensures PointToAbsolute(PointToFrame(a, Some(f)), Some(f)) == a
  {
    RotateBackAndForth(f.rotation, Sub(a, f.translation));
  }

  /**
   * The identity short-circuit of the public transforms is only a shortcut: for a
   * unitary frame, moving a point into the frame it already carries gives it back.
   */
  lemma ShortCircuitIsExact(p: CartesianPoint)
    requires p.frame.Some? ==> Unitary(p.frame.value.rotation)
    ensures MovePoint(p, p.frame) == p
  {
    if p.frame.Some? {
      var f := p.frame.value;
      RotateThenBack(f.rotation, p.r);
      assert Sub(PointToAbsolute(p.r, p.frame), f.translation) == Rotate(f.rotation, p.r);
    }
  }

  /** Round trip of an absolute point through a unitary frame and back. */
  lemma PointRoundTrip(p: CartesianPoint, f: Frame)
    requires p.frame.None? && Unitary(f.rotation)
    ensures CartesianPointTransform(CartesianPointTransform(p, Some(f)), None) == p
  {
    PointBackAndForth(p.r, f);
  }

  /** Round trip of an absolute vector through a unitary frame and back. */
  lemma VectorRoundTrip(u: CartesianVector, f: Frame)
    requires u.frame.None? && Unitary(f.rotation)
    ensures CartesianVectorTransform(CartesianVectorTransform(u, Some(f)), None) == u
  {
    RotateBackAndForth(f.rotation, u.v);
  }

  /** Two tags that are both absent or both present with the same rotation. */
  predicate SameRotation(a: Option<Frame>, b: Option<Frame>) {
    (a.None? && b.None?) || (a.Some? && b.Some? && a.value.rotation == b.value.rotation)
  }

  /**
   * A vector transform uses only the rotations: frames that differ only in their
   * translation give the same components.
   */
  lemma VectorIgnoresTranslation(v: Vec3, from: Option<Frame>, to: Option<Frame>, from': Option<Frame>, to': Option<Frame>)
    requires SameRotation(from, from') && SameRotation(to, to')
    requires SameTag(from, to) <==> SameTag(from', to')
    ensures CartesianVectorTransform(CartesianVector(v, from), to).v
         == CartesianVectorTransform(CartesianVector(v, from'), to').v
  {
  }

  /** A point transform does use the translation: the origin of a shifted frame moves. */
  lemma PointUsesTranslation()
    ensures var id := Mat3(Vec3(1.0, 0.0, 0.0), Vec3(0.0, 1.0, 0.0), Vec3(0.0, 0.0, 1.0));
            CartesianPointTransform(CartesianPoint(ZERO, None), Some(Frame(0, Vec3(1.0, 0.0, 0.0), id))).r
            == Vec3(-1.0, 0.0, 0.0)
  {
  }

  // ---------------------------------------------------------------------------
  // Angular representations.

  /** The trigonometric primitives of the C library, left abstract. */
  datatype Trig = Trig(sin: real -> real, cos: real -> real, sqrt: real -> real, atan2: (real, real) -> real)

  /** `spherical_from_horizontal`: navigational to mathematical angles. */
  function SphericalFromHorizontal(h: HorizontalVector): (s: SphericalVector)
    ensures s.norm == h.norm && s.frame == h.frame
    ensures s.theta + h.elevation == HALF_PI && s.phi + h.azimuth == HALF_PI
  {
    SphericalVector(h.norm, HALF_PI - h.elevation, HALF_PI - h.azimuth, h.frame)
  }

  /** `horizontal_from_spherical`: mathematical to navigational angles. */
  function HorizontalFromSpherical(s: SphericalVector): (h: HorizontalVector)
    ensures h.norm == s.norm && h.frame == s.frame
    ensures s.theta + h.elevation == HALF_PI && s.phi + h.azimuth == HALF_PI
  {
    HorizontalVector(s.norm, HALF_PI - s.theta, HALF_PI - s.phi, s.frame)
  }

  /** The two angle swaps are inverse to each other. */
  lemma {:induction false} AngleSwapsInverse(h: HorizontalVector, s: SphericalVector)
    ensures HorizontalFromSpherical(SphericalFromHorizontal(h)) == h
    ensures SphericalFromHorizontal(HorizontalFromSpherical(s)) == s
  {
  }

  /**
   * `cartesian_from_spherical` as written: the z component is `cos(theta)`, not
   * multiplied by the radius.
   */
  function CartesianFromSphericalAsWritten(r: real, theta: real, phi: real, trig: Trig): Vec3 {
    var st := trig.sin(theta);
    Vec3(r * trig.cos(phi) * st, r * trig.sin(phi) * st, trig.cos(theta))
  }

  /** `cartesian_from_spherical` with the radius applied to every component. */
  function CartesianFromSpherical(r: real, theta: real, phi: real, trig: Trig): Vec3 {
    var st := trig.sin(theta);
    Vec3(r * trig.cos(phi) * st, r * trig.sin(phi) * st, r * trig.cos(theta))
  }

  predicate Pythagorean(trig: Trig, a: real) {
    trig.sin(a) * trig.sin(a) + trig.cos(a) * trig.cos(a) == 1.0
  }

  /** The corrected conversion gives a vector whose squared length is r^2. */
  lemma CartesianFromSphericalLength(r: real, theta: real, phi: real, trig: Trig)
    requires Pythagorean(trig, theta) && Pythagorean(trig, phi)
    ensures var c := CartesianFromSpherical(r, theta, phi, trig); Dot(c, c) == r * r
  {
    var st, ct, sp, cp := trig.sin(theta), trig.cos(theta), trig.sin(phi), trig.cos(phi);
    var c := CartesianFromSpherical(r, theta, phi, trig);
    calc {
      Dot(c, c);
      (r * cp * st) * (r * cp * st) + (r * sp * st) * (r * sp * st) + (r * ct) * (r * ct);
      r * r * st * st * (cp * cp + sp * sp) + r * r * ct * ct;
      r * r * (st * st + ct * ct);
      r * r;
    }
  }

  /** As written, a point at radius 2 on the polar axis comes out at length 1. */
  lemma CartesianFromSphericalAsWrittenDropsRadius(trig: Trig)
    requires trig.sin(0.0) == 0.0 && trig.cos(0.0) == 1.0
    ensures CartesianFromSphericalAsWritten(2.0, 0.0, 0.0, trig) == Vec3(0.0, 0.0, 1.0)
    ensures CartesianFromSpherical(2.0, 0.0, 0.0, trig) == Vec3(0.0, 0.0, 2.0)
  {
  }

  /** `spherical_from_cartesian`: radius, polar angle, azimuth (0 on the polar axis). */
  datatype Angles = Angles(r: real, theta: real, phi: real)

  function SphericalFromCartesian(c: Vec3, trig: Trig): (a: Angles)
    ensures Abs(a.theta) <= FLT_EPSILON ==> a.phi == 0.0
  {
    var rho2 := c.x * c.x + c.y * c.y;
    var theta := trig.atan2(trig.sqrt(rho2), c.z);
    var phi := if Abs(theta) <= FLT_EPSILON then 0.0 else trig.atan2(c.y, c.x);
    Angles(trig.sqrt(rho2 + c.z * c.z), theta, phi)
  }

  /**
   * `pumas_coordinates_cartesian_point_from_spherical` as written: through
   * `cartesian_from_spherical`, so the z component lacks the radius. It keeps the
   * frame tag and agrees with the corrected conversion on x and y; its z times the
   * radius is the corrected z.
   */
  function CartesianPointFromSphericalAsWritten(p: SphericalPoint, trig: Trig): (q: CartesianPoint)
    ensures q.frame == p.frame
    ensures var c := CartesianPointFromSpherical(p, trig);
            q.r.x == c.r.x && q.r.y == c.r.y && p.r * q.r.z == c.r.z
  {
    CartesianPoint(CartesianFromSphericalAsWritten(p.r, p.theta, p.phi, trig), p.frame)
  }

  /** `pumas_coordinates_cartesian_vector_from_spherical` as written, likewise. */
  function CartesianVectorFromSphericalAsWritten(s: SphericalVector, trig: Trig): (u: CartesianVector)
    ensures u.frame == s.frame
    ensures var c := CartesianVectorFromSpherical(s, trig);
            u.v.x == c.v.x && u.v.y == c.v.y && s.norm * u.v.z == c.v.z
  {
    CartesianVector(CartesianFromSphericalAsWritten(s.norm, s.theta, s.phi, trig), s.frame)
  }

  /**
   * `pumas_coordinates_cartesian_vector_from_horizontal` as written: the angle
   * swap, then the as-written spherical conversion.
   */
  function CartesianVectorFromHorizontalAsWritten(h: HorizontalVector, trig: Trig): (u: CartesianVector)
    ensures u.frame == h.frame
    ensures u == CartesianVectorFromSphericalAsWritten(SphericalFromHorizontal(h), trig)
  {
    var s := SphericalFromHorizontal(h);
    CartesianVector(CartesianFromSphericalAsWritten(s.norm, s.theta, s.phi, trig), h.frame)
  }

  /**
   * The public converters as written and corrected agree exactly when the radius
   * is 1 or the polar angle's cosine is 0.
   */
  lemma PublicConvertersDropRadius(p: SphericalPoint, s: SphericalVector, trig: Trig)
    ensures CartesianPointFromSphericalAsWritten(p, trig) == CartesianPointFromSpherical(p, trig)
            <==> p.r == 1.0 || trig.cos(p.theta) == 0.0
    ensures CartesianVectorFromSphericalAsWritten(s, trig) == CartesianVectorFromSpherical(s, trig)
            <==> s.norm == 1.0 || trig.cos(s.theta) == 0.0
  {
    ScaledEqualsItself(p.r, trig.cos(p.theta));
    ScaledEqualsItself(s.norm, trig.cos(s.theta));
  }

  lemma ScaledEqualsItself(r: real, c: real)
    ensures r * c == c <==> r == 1.0 || c == 0.0
  {
    assert r * c - c == (r - 1.0) * c;
  }

  /**
   * `pumas_coordinates_cartesian_point_from_spherical`, corrected: keeps the frame
   * tag and, under the Pythagorean identity, the radius.
   */
  function CartesianPointFromSpherical(p: SphericalPoint, trig: Trig): (q: CartesianPoint)
    ensures q.frame == p.frame
    ensures Pythagorean(trig, p.theta) && Pythagorean(trig, p.phi) ==> Dot(q.r, q.r) == p.r * p.r
  {
    var c := CartesianFromSpherical(p.r, p.theta, p.phi, trig);
    if Pythagorean(trig, p.theta) && Pythagorean(trig, p.phi) then
      CartesianFromSphericalLength(p.r, p.theta, p.phi, trig);
      CartesianPoint(c, p.frame)
    else
      CartesianPoint(c, p.frame)
  }

  /**
   * `pumas_coordinates_cartesian_vector_from_spherical`, corrected: keeps the frame
   * tag and, under the Pythagorean identity, the norm.
   */
  function CartesianVectorFromSpherical(s: SphericalVector, trig: Trig): (u: CartesianVector)
    ensures u.frame == s.frame
    ensures Pythagorean(trig, s.theta) && Pythagorean(trig, s.phi) ==> Dot(u.v, u.v) == s.norm * s.norm
  {
    var c := CartesianFromSpherical(s.norm, s.theta, s.phi, trig);
    if Pythagorean(trig, s.theta) && Pythagorean(trig, s.phi) then
      CartesianFromSphericalLength(s.norm, s.theta, s.phi, trig);
      CartesianVector(c, s.frame)
    else
      CartesianVector(c, s.frame)
  }

  /** `pumas_coordinates_cartesian_vector_from_horizontal`, corrected. */
  function CartesianVectorFromHorizontal(h: HorizontalVector, trig: Trig): (u: CartesianVector)
    ensures u.frame == h.frame
    ensures u == CartesianVectorFromSpherical(SphericalFromHorizontal(h), trig)
  {
    var s := SphericalFromHorizontal(h);
    CartesianVector(CartesianFromSpherical(s.norm, s.theta, s.phi, trig), h.frame)
  }

  /** `pumas_coordinates_spherical_vector_from_horizontal`: the angle swap, keeping the frame tag. */
  function SphericalVectorFromHorizontal(h: HorizontalVector): (s: SphericalVector)
    ensures s.norm == h.norm && s.frame == h.frame
    ensures s.theta + h.elevation == HALF_PI && s.phi + h.azimuth == HALF_PI
  {
    SphericalFromHorizontal(h).(frame := h.frame)
  }

  /** `pumas_coordinates_horizontal_vector_from_spherical`: the angle swap, keeping the frame tag. */
  function HorizontalVectorFromSpherical(s: SphericalVector): (h: HorizontalVector)
    ensures h.norm == s.norm && h.frame == s.frame
    ensures s.theta + h.elevation == HALF_PI && s.phi + h.azimuth == HALF_PI
  {
    HorizontalFromSpherical(s).(frame := s.frame)
  }

  /** The two public angle converters undo each other. */
  lemma PublicAngleConvertersInverse(h: HorizontalVector, s: SphericalVector)
    ensures HorizontalVectorFromSpherical(SphericalVectorFromHorizontal(h)) == h
    ensures SphericalVectorFromHorizontal(HorizontalVectorFromSpherical(s)) == s
  {
  }

  /** `pumas_coordinates_spherical_point_from_cartesian`: keeps the frame tag. */
  function SphericalPointFromCartesian(p: CartesianPoint, trig: Trig): (s: SphericalPoint)
    ensures s.frame == p.frame
  {
    var a := SphericalFromCartesian(p.r, trig);
    SphericalPoint(a.r, a.theta, a.phi, p.frame)
  }

  /** `pumas_coordinates_spherical_vector_from_cartesian`: keeps the frame tag. */
  function SphericalVectorFromCartesian(u: CartesianVector, trig: Trig): (s: SphericalVector)
    ensures s.frame == u.frame
  {
    var a := SphericalFromCartesian(u.v, trig);
    SphericalVector(a.r, a.theta, a.phi, u.frame)
  }

  /** `pumas_coordinates_horizontal_vector_from_cartesian`: keeps the frame tag. */
  function HorizontalVectorFromCartesian(u: CartesianVector, trig: Trig): (h: HorizontalVector)
    ensures h.frame == u.frame
    ensures h == HorizontalFromSpherical(SphericalVectorFromCartesian(u, trig))
  {
    var a := SphericalFromCartesian(u.v, trig);
    HorizontalFromSpherical(SphericalVector(a.r, a.theta, a.phi, u.frame))
  }

  // ---------------------------------------------------------------------------
  // Frame changes of the angular representations.
  //
  // As written, each of these converts into a local Cartesian temporary whose
  // frame field is never set, then hands that temporary to the Cartesian
  // transform, which reads the field as the frame to undo. The `AsWritten`
  // members take that indeterminate value as the parameter `stale`, and use
  // `cartesian_from_spherical` as written. The members without the suffix take
  // the object's own frame, the evident intent, and the corrected conversion:
  // they correct both defects together.

  /** `pumas_coordinates_horizontal_vector_transform` as written. */
  function HorizontalVectorTransformAsWritten(h: HorizontalVector, target: Option<Frame>, trig: Trig, stale: Option<Frame>): (g: HorizontalVector)
    ensures g.frame == target
  {
    if SameTag(h.frame, target) then h.(frame := target)
    else
      var s := SphericalFromHorizontal(h);
      var c := CartesianVector(CartesianFromSphericalAsWritten(s.norm, s.theta, s.phi, trig), stale);
      HorizontalVectorFromCartesian(MoveVector(c, target), trig).(frame := target)
  }

  /**
   * `pumas_coordinates_horizontal_vector_transform`, corrected: the same as
   * converting with the public Cartesian converter, transforming, and converting
   * back.
   */
  function HorizontalVectorTransform(h: HorizontalVector, target: Option<Frame>, trig: Trig): (g: HorizontalVector)
    ensures g.frame == target
    ensures SameTag(h.frame, target) ==> g == h.(frame := target)
    ensures !SameTag(h.frame, target) ==> g == HorizontalVectorFromCartesian(CartesianVectorTransform(CartesianVectorFromHorizontal(h, trig), target), trig)
  {
    if SameTag(h.frame, target) then h.(frame := target)
    else
      var s := SphericalFromHorizontal(h);
      var c := CartesianVector(CartesianFromSpherical(s.norm, s.theta, s.phi, trig), h.frame);
      HorizontalVectorFromCartesian(MoveVector(c, target), trig).(frame := target)
  }

  /** `pumas_coordinates_spherical_point_transform` as written. */
  function SphericalPointTransformAsWritten(p: SphericalPoint, target: Option<Frame>, trig: Trig, stale: Option<Frame>): (q: SphericalPoint)
    ensures q.frame == target
  {
    if SameTag(p.frame, target) then p.(frame := target)
    else
      var c := CartesianPoint(CartesianFromSphericalAsWritten(p.r, p.theta, p.phi, trig), stale);
      SphericalPointFromCartesian(MovePoint(c, target), trig)
  }

  /** `pumas_coordinates_spherical_point_transform`, corrected. */
  function SphericalPointTransform(p: SphericalPoint, target: Option<Frame>, trig: Trig): (q: SphericalPoint)
    ensures q.frame == target
    ensures SameTag(p.frame, target) ==> q == p.(frame := target)
    ensures !SameTag(p.frame, target) ==> q == SphericalPointFromCartesian(CartesianPointTransform(CartesianPointFromSpherical(p, trig), target), trig)
  {
    if SameTag(p.frame, target) then p.(frame := target)
    else
      var c := CartesianPoint(CartesianFromSpherical(p.r, p.theta, p.phi, trig), p.frame);
      SphericalPointFromCartesian(MovePoint(c, target), trig)
  }

  /** `pumas_coordinates_spherical_vector_transform` as written. */
  function SphericalVectorTransformAsWritten(s: SphericalVector, target: Option<Frame>, trig: Trig, stale: Option<Frame>): (t: SphericalVector)
    ensures t.frame == target
  {
    if SameTag(s.frame, target) then s.(frame := target)
    else
      var c := CartesianVector(CartesianFromSphericalAsWritten(s.norm, s.theta, s.phi, trig), stale);
      SphericalVectorFromCartesian(MoveVector(c, target), trig)
  }

  /** `pumas_coordinates_spherical_vector_transform`, corrected. */
  function SphericalVectorTransform(s: SphericalVector, target: Option<Frame>, trig: Trig): (t: SphericalVector)
    ensures t.frame == target
    ensures SameTag(s.frame, target) ==> t == s.(frame := target)
    ensures !SameTag(s.frame, target) ==> t == SphericalVectorFromCartesian(CartesianVectorTransform(CartesianVectorFromSpherical(s, trig), target), trig)
  {
    if SameTag(s.frame, target) then s.(frame := target)
    else
      var c := CartesianVector(CartesianFromSpherical(s.norm, s.theta, s.phi, trig), s.frame);
      SphericalVectorFromCartesian(MoveVector(c, target), trig)
  }

  /** The exact values of the primitives at the arguments the examples below use. */
  predicate ExactAtAxes(trig: Trig) {
    && trig.sin(0.0) == 0.0 && trig.cos(0.0) == 1.0
    && trig.sqrt(0.0) == 0.0 && trig.sqrt(1.0) == 1.0
    && trig.atan2(0.0, 1.0) == 0.0 && trig.atan2(1.0, 0.0) == HALF_PI
  }

  /** A unitary frame that swaps the x and z axes. */
  const SWAP_XZ := Frame(1, ZERO, Mat3(Vec3(0.0, 0.0, 1.0), Vec3(0.0, 1.0, 0.0), Vec3(1.0, 0.0, 0.0)))

  /** The polar axis in spherical coordinates is the unit z vector. */
  lemma PolarUnit(trig: Trig)
    requires ExactAtAxes(trig)
    ensures CartesianFromSpherical(1.0, 0.0, 0.0, trig) == Vec3(0.0, 0.0, 1.0)
  {
  }

  /** The unit x vector lies at polar angle pi/2. */
  lemma XAxisPolarAngle(trig: Trig)
    requires ExactAtAxes(trig)
    ensures SphericalFromCartesian(Vec3(1.0, 0.0, 0.0), trig).theta == HALF_PI
  {
  }

  /** Away from its own frame, the corrected transform is the Cartesian move read back as angles. */
  lemma HorizontalTransformThroughCartesian(h: HorizontalVector, target: Option<Frame>, trig: Trig)
    requires !SameTag(h.frame, target)
    ensures HorizontalVectorTransform(h, target, trig).elevation
         == HALF_PI - SphericalFromCartesian(MoveVector(CartesianVectorFromHorizontal(h, trig), target).v, trig).theta
  {
  }

  lemma SphericalPointTransformThroughCartesian(p: SphericalPoint, target: Option<Frame>, trig: Trig)
    requires !SameTag(p.frame, target)
    ensures SphericalPointTransform(p, target, trig).theta
         == SphericalFromCartesian(MovePoint(CartesianPointFromSpherical(p, trig), target).r, trig).theta
  {
  }

  lemma SphericalVectorTransformThroughCartesian(s: SphericalVector, target: Option<Frame>, trig: Trig)
    requires !SameTag(s.frame, target)
    ensures SphericalVectorTransform(s, target, trig).theta
         == SphericalFromCartesian(MoveVector(CartesianVectorFromSpherical(s, trig), target).v, trig).theta
  {
  }

  /**
   * The zenith of the swapped frame, taken to the absolute frame. It points along
   * absolute x, so its elevation there is 0; as written, with the stale tag NULL,
   * the frame is never undone and the vector keeps elevation pi/2.
   */
  lemma HorizontalTransformReadsStaleFrame(trig: Trig)
    requires ExactAtAxes(trig)
    ensures var h := HorizontalVector(1.0, HALF_PI, HALF_PI, Some(SWAP_XZ));
            && HorizontalVectorTransformAsWritten(h, None, trig, None).elevation == HALF_PI
            && HorizontalVectorTransform(h, None, trig).elevation == 0.0
  {
    StaleHorizontalKeepsElevation(trig);
    CorrectedHorizontalLevels(trig);
  }

  lemma StaleHorizontalKeepsElevation(trig: Trig)
    requires ExactAtAxes(trig)
    ensures HorizontalVectorTransformAsWritten(HorizontalVector(1.0, HALF_PI, HALF_PI, Some(SWAP_XZ)), None, trig, None).elevation == HALF_PI
  {
  }

  lemma CorrectedHorizontalLevels(trig: Trig)
    requires ExactAtAxes(trig)
    ensures HorizontalVectorTransform(HorizontalVector(1.0, HALF_PI, HALF_PI, Some(SWAP_XZ)), None, trig).elevation == 0.0
  {
    SwapZenithTilts(trig);
    HorizontalTransformThroughCartesian(HorizontalVector(1.0, HALF_PI, HALF_PI, Some(SWAP_XZ)), None, trig);
  }

  /** The zenith of the swapped frame moves to absolute x, at polar angle pi/2. */
  lemma SwapZenithTilts(trig: Trig)
    requires ExactAtAxes(trig)
    ensures SphericalFromCartesian(MoveVector(CartesianVectorFromHorizontal(HorizontalVector(1.0, HALF_PI, HALF_PI, Some(SWAP_XZ)), trig), None).v, trig).theta == HALF_PI
  {
    SwapZenithMovesToX(trig);
    XAxisPolarAngle(trig);
  }

  lemma SwapZenithMovesToX(trig: Trig)
    requires ExactAtAxes(trig)
    ensures MoveVector(CartesianVectorFromHorizontal(HorizontalVector(1.0, HALF_PI, HALF_PI, Some(SWAP_XZ)), trig), None).v == Vec3(1.0, 0.0, 0.0)
  {
    PolarUnit(trig);
  }

  /**
   * The unit point on the polar axis of the swapped frame lies on absolute x, at
   * polar angle pi/2; as written, with the stale tag NULL, it stays at angle 0.
   */
  lemma SphericalPointTransformReadsStaleFrame(trig: Trig)
    requires ExactAtAxes(trig)
    ensures var p := SphericalPoint(1.0, 0.0, 0.0, Some(SWAP_XZ));
            && SphericalPointTransformAsWritten(p, None, trig, None).theta == 0.0
            && SphericalPointTransform(p, None, trig).theta == HALF_PI
  {
    StaleSphericalPointStaysOnAxis(trig);
    CorrectedSphericalPointTilts(trig);
  }

  lemma StaleSphericalPointStaysOnAxis(trig: Trig)
    requires ExactAtAxes(trig)
    ensures SphericalPointTransformAsWritten(SphericalPoint(1.0, 0.0, 0.0, Some(SWAP_XZ)), None, trig, None).theta == 0.0
  {
  }

  lemma CorrectedSphericalPointTilts(trig: Trig)
    requires ExactAtAxes(trig)
    ensures SphericalPointTransform(SphericalPoint(1.0, 0.0, 0.0, Some(SWAP_XZ)), None, trig).theta == HALF_PI
  {
    SwapPoleTilts(trig);
    SphericalPointTransformThroughCartesian(SphericalPoint(1.0, 0.0, 0.0, Some(SWAP_XZ)), None, trig);
  }

  /** The pole of the swapped frame moves to absolute x, at polar angle pi/2. */
  lemma SwapPoleTilts(trig: Trig)
    requires ExactAtAxes(trig)
    ensures SphericalFromCartesian(MovePoint(CartesianPointFromSpherical(SphericalPoint(1.0, 0.0, 0.0, Some(SWAP_XZ)), trig), None).r, trig).theta == HALF_PI
  {
    SwapPoleMovesToX(trig);
    XAxisPolarAngle(trig);
  }

  lemma SwapPoleMovesToX(trig: Trig)
    requires ExactAtAxes(trig)
    ensures MovePoint(CartesianPointFromSpherical(SphericalPoint(1.0, 0.0, 0.0, Some(SWAP_XZ)), trig), None).r == Vec3(1.0, 0.0, 0.0)
  {
    PolarUnit(trig);
  }

  /** The same example for a spherical vector. */
  lemma SphericalVectorTransformReadsStaleFrame(trig: Trig)
    requires ExactAtAxes(trig)
    ensures var s := SphericalVector(1.0, 0.0, 0.0, Some(SWAP_XZ));
            && SphericalVectorTransformAsWritten(s, None, trig, None).theta == 0.0
            && SphericalVectorTransform(s, None, trig).theta == HALF_PI
  {
    StaleSphericalVectorStaysOnAxis(trig);
    CorrectedSphericalVectorTilts(trig);
  }

  lemma StaleSphericalVectorStaysOnAxis(trig: Trig)
    requires ExactAtAxes(trig)
    ensures SphericalVectorTransformAsWritten(SphericalVector(1.0, 0.0, 0.0, Some(SWAP_XZ)), None, trig, None).theta == 0.0
  {
  }

  lemma CorrectedSphericalVectorTilts(trig: Trig)
    requires ExactAtAxes(trig)
    ensures SphericalVectorTransform(SphericalVector(1.0, 0.0, 0.0, Some(SWAP_XZ)), None, trig).theta == HALF_PI
  {
    SwapPoleVectorTilts(trig);
    SphericalVectorTiltsAsMoved(SphericalVector(1.0, 0.0, 0.0, Some(SWAP_XZ)), None, trig, HALF_PI);
  }

  /** Any polar angle the Cartesian move reaches is the one the corrected transform returns. */
  lemma SphericalVectorTiltsAsMoved(s: SphericalVector, target: Option<Frame>, trig: Trig, theta: real)
    requires !SameTag(s.frame, target)
    requires SphericalFromCartesian(MoveVector(CartesianVectorFromSpherical(s, trig), target).v, trig).theta == theta
    ensures SphericalVectorTransform(s, target, trig).theta == theta
  {
    SphericalVectorTransformThroughCartesian(s, target, trig);
  }

  /** The polar direction of the swapped frame moves to absolute x, at polar angle pi/2. */
  lemma SwapPoleVectorTilts(trig: Trig)
    requires ExactAtAxes(trig)
    ensures SphericalFromCartesian(MoveVector(CartesianVectorFromSpherical(SphericalVector(1.0, 0.0, 0.0, Some(SWAP_XZ)), trig), None).v, trig).theta == HALF_PI
  {
    SwapPoleVectorMovesToX(trig);
    XAxisPolarAngle(trig);
  }

  lemma SwapPoleVectorMovesToX(trig: Trig)
    requires ExactAtAxes(trig)
    ensures MoveVector(CartesianVectorFromSpherical(SphericalVector(1.0, 0.0, 0.0, Some(SWAP_XZ)), trig), None).v == Vec3(1.0, 0.0, 0.0)
  {
    PolarUnit(trig);
  }

  /**
   * `pumas_coordinates_frame_initialise_local`: translation at the given origin,
   * rotation columns from the topography library's horizontal-to-ECEF routine at
   * (azimuth, elevation) = (90, 0), (0, 0) and (0, 90): local east, north and up.
   */
  function FrameInitialiseLocal(id: nat, origin: CartesianPoint, geodetic: GeodeticPoint,
                                horizontalToEcef: (real, real, real, real) -> Vec3): (f: Frame)
    ensures f.translation == origin.r
    ensures Col0(f.rotation) == horizontalToEcef(geodetic.latitude, geodetic.longitude, 90.0, 0.0)
    ensures Col1(f.rotation) == horizontalToEcef(geodetic.latitude, geodetic.longitude, 0.0, 0.0)
    ensures Col2(f.rotation) == horizontalToEcef(geodetic.latitude, geodetic.longitude, 0.0, 90.0)
  {
    var e := horizontalToEcef(geodetic.latitude, geodetic.longitude, 90.0, 0.0);
    var n := horizontalToEcef(geodetic.latitude, geodetic.longitude, 0.0, 0.0);
    var u := horizontalToEcef(geodetic.latitude, geodetic.longitude, 0.0, 90.0);
    Frame(id, origin.r, Mat3(Vec3(e.x, n.x, u.x), Vec3(e.y, n.y, u.y), Vec3(e.z, n.z, u.z)))
  }
}
