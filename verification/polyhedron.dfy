/**
 * The convex polyhedron geometry: a medium bounded by planar faces, each given
 * by a point on it and its outgoing normal. Its getter decides whether the
 * position is inside and proposes the distance to the next crossing.
 */
module Polyhedra {
  import opened Wrappers
  import opened Coordinates
  import opened Media

  /** The minimal step a polyhedron proposes (STEP_MIN, 10 um). */
  const STEP_MIN: real := 0.00001

  datatype Face = Face(origin: Vec3, normal: Vec3)

  datatype Polyhedron = Polyhedron(medium: Option<Medium>, faces: seq<Face>)

  /** The transport direction of the context. */
  datatype Mode = Forward | Backward

  /** Signed distance of the position past the face's plane (positive outside). */
  function PlaneOffset(position: Vec3, f: Face): real {
    Dot(Sub(position, f.origin), f.normal)
  }

  /** Projection of the direction on the face's normal. */
  function Heading(direction: Vec3, f: Face): real {
    Dot(direction, f.normal)
  }

  /** The direction leaves through this face's plane (not grazing it). */
  predicate Exits(direction: Vec3, f: Face) {
    Heading(direction, f) > FLT_EPSILON
  }

  /** The direction enters through this face's plane (not grazing it). */
  predicate Enters(direction: Vec3, f: Face) {
    Heading(direction, f) < -FLT_EPSILON
  }

  /** Distance along the direction to the face's plane; exactly 0 on the plane. */
  function Crossing(position: Vec3, direction: Vec3, f: Face): real {
    var rn := PlaneOffset(position, f);
    var un := Heading(direction, f);
    if rn == 0.0 || un == 0.0 then 0.0 else -rn / un
  }

  /** The running state of the face loop: inside flag, farthest entry, nearest exit. */
  datatype Bounds = Bounds(inside: bool, entering: real, leaving: real)

  /** One iteration of the face loop. */
  function Visit(b: Bounds, position: Vec3, direction: Vec3, f: Face): Bounds {
    var inside := b.inside && !(PlaneOffset(position, f) > 0.0);
    var un := Heading(direction, f);
    if Abs(un) <= FLT_EPSILON then Bounds(inside, b.entering, b.leaving)
    else
      var d := Crossing(position, direction, f);
      if un > 0.0 && d < b.leaving then Bounds(inside, b.entering, d)
      else if un < 0.0 && d > b.entering then Bounds(inside, d, b.leaving)
      else Bounds(inside, b.entering, b.leaving)
  }

  /** The face loop over `faces` in order, from (inside, -DBL_MAX, DBL_MAX). */
  function ScanFaces(position: Vec3, direction: Vec3, faces: seq<Face>): (r: Bounds)
    ensures r.leaving <= DBL_MAX && r.entering >= -DBL_MAX
    decreases |faces|
  {
    if |faces| == 0 then Bounds(true, -DBL_MAX, DBL_MAX)
    else Visit(ScanFaces(position, direction, faces[..|faces| - 1]), position, direction, faces[|faces| - 1])
  }

  /**
   * What the face loop computes: the position is inside exactly when it is on the
   * inner side of every face; the nearest exit is the least crossing distance over
   * the exiting faces, capped at DBL_MAX; the farthest entry the greatest over the
   * entering faces, floored at -DBL_MAX. Grazing faces take no part.
   */
  lemma {:induction false} ScanFacesCharacterised(position: Vec3, direction: Vec3, faces: seq<Face>)
    ensures var r := ScanFaces(position, direction, faces);
      && (r.inside <==> forall i :: 0 <= i < |faces| ==> PlaneOffset(position, faces[i]) <= 0.0)
      && (forall i :: 0 <= i < |faces| && Exits(direction, faces[i]) ==> r.leaving <= Crossing(position, direction, faces[i]))
      && (r.leaving == DBL_MAX || exists i :: 0 <= i < |faces| && Exits(direction, faces[i]) && r.leaving == Crossing(position, direction, faces[i]))
      && (forall i :: 0 <= i < |faces| && Enters(direction, faces[i]) ==> r.entering >= Crossing(position, direction, faces[i]))
      && (r.entering == -DBL_MAX || exists i :: 0 <= i < |faces| && Enters(direction, faces[i]) && r.entering == Crossing(position, direction, faces[i]))
    decreases |faces|
  {
    if |faces| > 0 {
      var n := |faces| - 1;
      ScanFacesCharacterised(position, direction, faces[..n]);
      assert forall i :: 0 <= i < n ==> faces[..n][i] == faces[i];
    }
  }

  /**
   * The decision that ends `pumas_geometry_polyhedron_get`. Inside with an exit
   * ahead, the medium is the polyhedron's and the step the exit distance; outside
   * with an entry ahead, no medium and the entry distance; both floored at
   * STEP_MIN. Otherwise the step is DBL_MAX and the medium is the polyhedron's
   * only when the position lies on an exit plane.
   */
  function Classify(medium: Option<Medium>, b: Bounds): (r: Probe)
    requires b.leaving <= DBL_MAX
    ensures r.step >= STEP_MIN
    ensures r.medium.Some? ==> r.medium == medium
    ensures b.inside && b.leaving > 0.0 ==>
              r.medium == medium && r.step >= b.leaving && (r.step == b.leaving || r.step == STEP_MIN)
    ensures !b.inside && b.entering > 0.0 ==>
              r.medium.None? && r.step >= b.entering && (r.step == b.entering || r.step == STEP_MIN)
    ensures !(b.inside && b.leaving > 0.0) && !(!b.inside && b.entering > 0.0) ==>
              r.step == DBL_MAX && (r.medium == medium <==> b.leaving == 0.0 || medium.None?)
  {
    if b.inside && b.leaving > 0.0 then
      Probe(medium, if b.leaving > STEP_MIN then b.leaving else STEP_MIN)
    else if !b.inside && b.entering > 0.0 then
      Probe(None, if b.entering > STEP_MIN then b.entering else STEP_MIN)
    else
      Probe(if b.leaving == 0.0 then medium else None, DBL_MAX)
  }

  /** `pumas_geometry_polyhedron_get`: the face loop, along the direction reversed in backward mode. */
  function PolyhedronGet(p: Polyhedron, position: Vec3, direction: Vec3, mode: Mode): (r: Probe)
    ensures r.step >= STEP_MIN
    ensures r.medium.Some? ==> r.medium == p.medium
  {
    var u := if mode == Forward then direction else Neg(direction);
    Classify(p.medium, ScanFaces(position, u, p.faces))
  }

  /** Backward mode is forward mode along the reversed direction. */
  lemma BackwardReversesDirection(p: Polyhedron, position: Vec3, direction: Vec3)
    ensures PolyhedronGet(p, position, direction, Backward) == PolyhedronGet(p, position, Neg(direction), Forward)
  {
  }

  /**
   * Inside, the proposed step never carries the track past an exit plane by more
   * than the STEP_MIN floor: it is at most every exiting face's crossing distance,
   * or exactly STEP_MIN.
   */
  lemma InsideStepStopsAtExit(p: Polyhedron, position: Vec3, direction: Vec3)
    requires forall i :: 0 <= i < |p.faces| ==> PlaneOffset(position, p.faces[i]) <= 0.0
    requires ScanFaces(position, direction, p.faces).leaving > 0.0
    ensures var r := PolyhedronGet(p, position, direction, Forward);
            && r.medium == p.medium
            && (r.step == STEP_MIN || forall i :: 0 <= i < |p.faces| && Exits(direction, p.faces[i]) ==> r.step <= Crossing(position, direction, p.faces[i]))
  {
    ScanFacesCharacterised(position, direction, p.faces);
  }

  /** A position outside any face is never reported inside unless it sits on an exit plane. */
  lemma OutsideGivesNoMedium(p: Polyhedron, position: Vec3, direction: Vec3, k: int)
    requires 0 <= k < |p.faces| && PlaneOffset(position, p.faces[k]) > 0.0
    requires ScanFaces(position, direction, p.faces).leaving != 0.0
    ensures PolyhedronGet(p, position, direction, Forward).medium.None?
  {
    ScanFacesCharacterised(position, direction, p.faces);
  }

  /** Inside every face, an exiting face's plane is ahead or at the position, never behind. */
  lemma ExitAhead(position: Vec3, direction: Vec3, f: Face)
    requires PlaneOffset(position, f) <= 0.0 && Exits(direction, f)
    ensures Crossing(position, direction, f) >= 0.0
  {
    var rn, un := PlaneOffset(position, f), Heading(direction, f);
    if rn != 0.0 {
      assert -rn / un > 0.0;
    }
  }

  /**
   * On the boundary, leaving: a position inside every face and on the plane of
   * an exiting face is still given the polyhedron's medium, with no step limit.
   */
  lemma OnExitPlane(p: Polyhedron, position: Vec3, direction: Vec3, k: int)
    requires forall i :: 0 <= i < |p.faces| ==> PlaneOffset(position, p.faces[i]) <= 0.0
    requires 0 <= k < |p.faces| && PlaneOffset(position, p.faces[k]) == 0.0 && Exits(direction, p.faces[k])
    ensures PolyhedronGet(p, position, direction, Forward) == Probe(p.medium, DBL_MAX)
  {
    ScanFacesCharacterised(position, direction, p.faces);
    var b := ScanFaces(position, direction, p.faces);
    assert b.leaving <= 0.0;
    if b.leaving != DBL_MAX {
      var i :| 0 <= i < |p.faces| && Exits(direction, p.faces[i]) && b.leaving == Crossing(position, direction, p.faces[i]);
      ExitAhead(position, direction, p.faces[i]);
    }
  }
}
