/**
 * The geometry tree and its navigation. Geometries live in an arena: a geometry
 * is an index into a sequence of nodes, each with an optional mother and an
 * ordered list of daughters (the source's `daughters`/`next` chain). A daughter
 * always has a larger index than its mother, which is the order in which trees
 * are built; it is also what makes the recursive walks below terminate.
 *
 * What a geometry reports at the current state (`get`) is a parameter of the
 * walk: the concrete getters are modelled in their own modules.
 */
module Geometry {
  import opened Wrappers
  import opened Coordinates
  import opened States
  import opened Media

  /** A geometry node; the flags say whether its `reset` and `destroy` hooks are set. */
  datatype Node = Node(mother: Option<nat>, daughters: seq<nat>, hasReset: bool, hasDestroy: bool)

  type Tree = seq<Node>

  /** The links of node `g` agree with each other and respect the arena order. */
  predicate NodeWellFormed(t: Tree, g: nat)
    requires g < |t|
  {
    var n := t[g];
    && (n.mother.Some? ==> n.mother.value < g && g in t[n.mother.value].daughters)
    && (forall j :: 0 <= j < |n.daughters| ==> g < n.daughters[j] < |t| && t[n.daughters[j]].mother == Some(g))
    && (forall j, k :: 0 <= j < k < |n.daughters| ==> n.daughters[j] != n.daughters[k])
  }

  predicate WellFormed(t: Tree) {
    forall g :: 0 <= g < |t| ==> NodeWellFormed(t, g)
  }

  /** The `j`-th daughter of `g`, with what well-formedness says about her. */
  function Daughter(t: Tree, g: nat, j: nat): (d: nat)
    requires WellFormed(t) && g < |t| && j < |t[g].daughters|
    ensures g < d < |t| && t[d].mother == Some(g) && d == t[g].daughters[j]
  {
    assert NodeWellFormed(t, g);
    t[g].daughters[j]
  }

  /** `x` is `a` or lies below it. */
  predicate Descends(t: Tree, a: nat, x: nat)
    decreases x
  {
    x == a || (x < |t| && t[x].mother.Some? && t[x].mother.value < x && Descends(t, a, t[x].mother.value))
  }

  lemma {:induction false} DescendsOrder(t: Tree, a: nat, x: nat)
    requires Descends(t, a, x)
    ensures a <= x
    decreases x
  {
    if x != a {
      DescendsOrder(t, a, t[x].mother.value);
    }
  }

  /** Below a daughter is below her mother. */
  lemma {:induction false} DescendsThroughMother(t: Tree, d: nat, g: nat, x: nat)
    requires d < |t| && t[d].mother == Some(g) && g < d
    requires Descends(t, d, x)
    ensures Descends(t, g, x)
    decreases x
  {
    if x != d {
      DescendsThroughMother(t, d, g, t[x].mother.value);
    }
  }

  /** The ancestors of a node form a chain. */
  lemma {:induction false} DescendsLinear(t: Tree, a: nat, b: nat, x: nat)
    requires Descends(t, a, x) && Descends(t, b, x)
    ensures Descends(t, a, b) || Descends(t, b, a)
    decreases x
  {
    if x != a && x != b {
      DescendsLinear(t, a, b, t[x].mother.value);
    }
  }

  /** A proper descendant of `g` lies below one of `g`'s daughters. */
  lemma {:induction false} DescendsSplit(t: Tree, g: nat, x: nat)
    requires WellFormed(t) && g < |t| && Descends(t, g, x) && x != g
    ensures exists j :: 0 <= j < |t[g].daughters| && Descends(t, t[g].daughters[j], x)
    decreases x
  {
    var m := t[x].mother.value;
    if m == g {
      assert NodeWellFormed(t, x);
      var j :| 0 <= j < |t[g].daughters| && t[g].daughters[j] == x;
      assert Descends(t, t[g].daughters[j], x);
    } else {
      DescendsSplit(t, g, m);
      var j :| 0 <= j < |t[g].daughters| && Descends(t, t[g].daughters[j], m);
      assert Descends(t, t[g].daughters[j], x);
    }
  }

  /** Two different daughters of one node have disjoint subtrees. */
  lemma SiblingsDisjoint(t: Tree, g: nat, j: nat, k: nat, x: nat)
    requires WellFormed(t) && g < |t| && j < k < |t[g].daughters|
    requires Descends(t, t[g].daughters[j], x)
    ensures !Descends(t, t[g].daughters[k], x)
  {
    assert NodeWellFormed(t, g);
    var dj, dk := t[g].daughters[j], t[g].daughters[k];
    if Descends(t, dk, x) {
      DescendsLinear(t, dj, dk, x);
      if Descends(t, dj, dk) {
        assert dk != dj;
        DescendsOrder(t, dj, t[dk].mother.value);
      } else {
        assert dk != dj;
        DescendsOrder(t, dk, t[dj].mother.value);
      }
    }
  }

  // ---------------------------------------------------------------------------
  // Building the tree.

  /**
   * `pumas_geometry_push`: `d` becomes the last daughter of `m`. The daughter is a
   * root created after its mother.
   */
  function Push(t: Tree, m: nat, d: nat): (r: Tree)
    requires WellFormed(t) && m < d < |t| && t[d].mother.None?
    ensures WellFormed(r) && |r| == |t|
    ensures r[d].mother == Some(m) && r[m].daughters == t[m].daughters + [d]
    ensures r[d].daughters == t[d].daughters && r[m].mother == t[m].mother
    ensures forall g :: 0 <= g < |t| && g != d && g != m ==> r[g] == t[g]
  {
    var r := t[m := t[m].(daughters := t[m].daughters + [d])][d := t[d].(mother := Some(m))];
    PushWellFormed(t, m, d, r);
    r
  }

  lemma PushWellFormed(t: Tree, m: nat, d: nat, r: Tree)
    requires WellFormed(t) && m < d < |t| && t[d].mother.None?
    requires r == t[m := t[m].(daughters := t[m].daughters + [d])][d := t[d].(mother := Some(m))]
    ensures WellFormed(r)
  {
    forall g | 0 <= g < |r|
      ensures NodeWellFormed(r, g)
    {
      assert NodeWellFormed(t, g);
      if r[g].mother.Some? && g != d {
        assert NodeWellFormed(t, r[g].mother.value);
      }
      forall j | 0 <= j < |r[g].daughters|
        ensures g < r[g].daughters[j] < |r| && r[r[g].daughters[j]].mother == Some(g)
      {
        if g != m || j < |t[m].daughters| {
          var x := t[g].daughters[j];
          assert NodeWellFormed(t, x);
          assert x != d;
        }
      }
      if g == m {
        forall j | 0 <= j < |t[m].daughters|
          ensures t[m].daughters[j] != d
        {
          assert NodeWellFormed(t, t[m].daughters[j]);
        }
      }
    }
  }

  // ---------------------------------------------------------------------------
  // Navigation.

  /** Where a navigation ends: the medium, the step and the geometry it ends in. */
  datatype Outcome = Outcome(medium: Option<Medium>, step: real, current: nat)

  /** The loop over daughters ends with a daughter's claim or with the reduced step. */
  datatype Scan = Claimed(outcome: Outcome) | Unclaimed(step: real)

  /** Navigation from `g` may move up to its mother. */
  predicate Climbs(t: Tree, g: nat, exclude: Option<nat>)
    requires g < |t|
  {
    t[g].mother.Some? && t[g].mother != exclude
  }

  function Rank(t: Tree, g: nat, exclude: Option<nat>): nat
    requires g < |t|
  {
    if Climbs(t, g, exclude) then g + 1 else 0
  }

  /**
   * `geometry_navigate` from `g`, never re-entering `exclude`. The geometry is
   * probed first; if it reports a medium and has daughters, the daughters are
   * probed in order and the first to end with a medium wins; otherwise `g` keeps
   * its medium with its step lowered to the least positive daughter step below
   * it. The transparent medium then counts as none, and a geometry with no medium
   * hands the navigation to its mother, which skips the daughter it came from.
   */
  function Navigate(t: Tree, get: nat -> Probe, g: nat, exclude: Option<nat>): (r: Outcome)
    requires WellFormed(t) && g < |t|
    ensures r.current < |t|
    ensures r.medium != Some(Transparent)
    ensures r.medium.Some? ==> get(r.current).medium == r.medium
    ensures !Climbs(t, g, exclude) ==> Descends(t, g, r.current)
    decreases Rank(t, g, exclude), |t| - g, 1, 0
  {
    var p := get(g);
    var own :=
      if p.medium.Some? && |t[g].daughters| > 0 then
        match ScanDaughters(t, get, g, exclude, 0, p.step)
        case Claimed(o) => o
        case Unclaimed(s) => Outcome(p.medium, s, g)
      else Outcome(p.medium, p.step, g);
    var medium := if own.medium == Some(Transparent) then None else own.medium;
    if medium.None? && Climbs(t, g, exclude) then
      assert NodeWellFormed(t, g);
      Navigate(t, get, t[g].mother.value, Some(g))
    else
      own.(medium := medium)
  }

  /**
   * The loop over the daughters of `g` from the `i`-th, with `best` the step so
   * far. A claim is a medium found below `g`; without a claim the step only ever
   * goes down, and only to a positive value.
   */
  function ScanDaughters(t: Tree, get: nat -> Probe, g: nat, exclude: Option<nat>, i: nat, best: real): (r: Scan)
    requires WellFormed(t) && g < |t| && i <= |t[g].daughters|
    ensures r.Claimed? ==>
              var o := r.outcome;
              && o.medium.Some? && o.medium != Some(Transparent)
              && o.current < |t| && o.current != g && Descends(t, g, o.current)
              && get(o.current).medium == o.medium
    ensures r.Unclaimed? ==> r.step <= best && (r.step == best || r.step > 0.0)
    decreases Rank(t, g, exclude), |t| - g, 0, |t[g].daughters| - i
  {
    if i == |t[g].daughters| then Unclaimed(best)
    else
      assert NodeWellFormed(t, g);
      var d := t[g].daughters[i];
      if Some(d) == exclude then ScanDaughters(t, get, g, exclude, i + 1, best)
      else
        var o := Navigate(t, get, d, Some(g));
        if o.medium.Some? then
          DescendsThroughMother(t, d, g, o.current);
          DescendsOrder(t, d, o.current);
          Claimed(o)
        else
          ScanDaughters(t, get, g, exclude, i + 1, if o.step > 0.0 && o.step < best then o.step else best)
  }

  /** A daughter the loop probes: in range and not the one navigation came from. */
  predicate Probed(t: Tree, g: nat, exclude: Option<nat>, j: nat)
    requires g < |t|
  {
    j < |t[g].daughters| && Some(t[g].daughters[j]) != exclude
  }

  /** The loop ends with a claim exactly when some probed daughter's navigation ends with a medium. */
  lemma {:induction false} ScanClaims(t: Tree, get: nat -> Probe, g: nat, exclude: Option<nat>, i: nat, best: real)
    requires WellFormed(t) && g < |t| && i <= |t[g].daughters|
    ensures ScanDaughters(t, get, g, exclude, i, best).Claimed?
            <==> exists j: nat :: i <= j && Probed(t, g, exclude, j) && Navigate(t, get, Daughter(t, g, j), Some(g)).medium.Some?
    decreases |t[g].daughters| - i
  {
    if i < |t[g].daughters| {
      var d := Daughter(t, g, i);
      if Some(d) == exclude {
        ScanClaims(t, get, g, exclude, i + 1, best);
        assert !Probed(t, g, exclude, i);
      } else {
        var o := Navigate(t, get, d, Some(g));
        if o.medium.None? {
          ScanClaims(t, get, g, exclude, i + 1, if o.step > 0.0 && o.step < best then o.step else best);
        } else {
          assert Probed(t, g, exclude, i);
        }
      }
    }
  }

  /**
   * A claim is that of the first probed daughter whose navigation ends with a
   * medium: every probed daughter before her ends without one.
   */
  lemma {:induction false} ScanFirstClaim(t: Tree, get: nat -> Probe, g: nat, exclude: Option<nat>, i: nat, best: real)
    requires WellFormed(t) && g < |t| && i <= |t[g].daughters|
    requires ScanDaughters(t, get, g, exclude, i, best).Claimed?
    ensures exists k: nat :: i <= k && Probed(t, g, exclude, k)
              && ScanDaughters(t, get, g, exclude, i, best).outcome == Navigate(t, get, Daughter(t, g, k), Some(g))
              && forall j: nat :: i <= j < k && Probed(t, g, exclude, j) ==> Navigate(t, get, Daughter(t, g, j), Some(g)).medium.None?
    decreases |t[g].daughters| - i
  {
    var d := Daughter(t, g, i);
    if Some(d) == exclude {
      ScanFirstClaim(t, get, g, exclude, i + 1, best);
      assert !Probed(t, g, exclude, i);
    } else {
      var o := Navigate(t, get, d, Some(g));
      if o.medium.None? {
        ScanFirstClaim(t, get, g, exclude, i + 1, if o.step > 0.0 && o.step < best then o.step else best);
      } else {
        assert Probed(t, g, exclude, i);
      }
    }
  }

  /**
   * Without a claim, the loop's step is at most `best` and at most every positive
   * step that a probed daughter's navigation ends with.
   */
  lemma {:induction false} ScanFallbackStep(t: Tree, get: nat -> Probe, g: nat, exclude: Option<nat>, i: nat, best: real)
    requires WellFormed(t) && g < |t| && i <= |t[g].daughters|
    requires ScanDaughters(t, get, g, exclude, i, best).Unclaimed?
    ensures var s := ScanDaughters(t, get, g, exclude, i, best).step;
            && s <= best
            && (forall j: nat :: i <= j && Probed(t, g, exclude, j) && Navigate(t, get, Daughter(t, g, j), Some(g)).step > 0.0 ==>
                  s <= Navigate(t, get, Daughter(t, g, j), Some(g)).step)
    decreases |t[g].daughters| - i
  {
    if i < |t[g].daughters| {
      var d := Daughter(t, g, i);
      if Some(d) == exclude {
        ScanFallbackStep(t, get, g, exclude, i + 1, best);
      } else {
        var o := Navigate(t, get, d, Some(g));
        ScanFallbackStep(t, get, g, exclude, i + 1, if o.step > 0.0 && o.step < best then o.step else best);
      }
    }
  }

  /**
   * Without a claim, the loop's step is `best` or the step that some probed
   * daughter's navigation ends with: with `ScanFallbackStep`, the least of them.
   */
  lemma {:induction false} ScanFallbackAttained(t: Tree, get: nat -> Probe, g: nat, exclude: Option<nat>, i: nat, best: real)
    requires WellFormed(t) && g < |t| && i <= |t[g].daughters|
    requires ScanDaughters(t, get, g, exclude, i, best).Unclaimed?
    ensures var s := ScanDaughters(t, get, g, exclude, i, best).step;
            s == best || exists j: nat :: i <= j && Probed(t, g, exclude, j) && s == Navigate(t, get, Daughter(t, g, j), Some(g)).step
    decreases |t[g].daughters| - i
  {
    if i < |t[g].daughters| {
      var d := Daughter(t, g, i);
      if Some(d) == exclude {
        ScanFallbackAttained(t, get, g, exclude, i + 1, best);
      } else {
        var o := Navigate(t, get, d, Some(g));
        ScanFallbackAttained(t, get, g, exclude, i + 1, if o.step > 0.0 && o.step < best then o.step else best);
        assert Probed(t, g, exclude, i);
      }
    }
  }

  /**
   * A geometry that reports a medium and a step of at most 0 keeps that step when
   * no daughter claims the position: the loop only takes daughter steps that are
   * positive and below the current one, so the daughters' distances are dropped.
   */
  lemma NonPositiveStepIgnoresDaughters(t: Tree, get: nat -> Probe, g: nat, exclude: Option<nat>)
    requires WellFormed(t) && g < |t|
    requires get(g).medium.Some? && get(g).medium != Some(Transparent) && get(g).step <= 0.0
    requires ScanDaughters(t, get, g, exclude, 0, get(g).step).Unclaimed?
    ensures Navigate(t, get, g, exclude) == Outcome(get(g).medium, get(g).step, g)
  {
  }

  /** `pumas_geometry_infinite_get`: the same medium everywhere, with no step limit (0). */
  function InfiniteGet(medium: Option<Medium>): (r: Probe)
    ensures r.medium == medium && r.step == 0.0
  {
    Probe(medium, 0.0)
  }

  /** A world (0) holding one box (1). */
  const WORLD_AND_BOX: Tree := [Node(None, [1], false, false), Node(Some(0), [], false, false)]

  lemma WorldAndBoxWellFormed()
    ensures WellFormed(WORLD_AND_BOX)
  {
    assert NodeWellFormed(WORLD_AND_BOX, 0);
    assert NodeWellFormed(WORLD_AND_BOX, 1);
  }

  /**
   * In an infinite world holding a box, a position inside the box ends in the
   * box with the box's step; outside it, it ends in the world with the world's
   * step 0, whatever the distance to the box; starting from the box and leaving
   * it, the navigation climbs to the world without probing the box again.
   */
  lemma WorldAndBoxNavigation(world: Medium, box: Medium, step: real)
    requires world != Transparent && box != Transparent && step > 0.0
    ensures WellFormed(WORLD_AND_BOX)
    ensures Navigate(WORLD_AND_BOX, (g: nat) => if g == 0 then InfiniteGet(Some(world)) else Probe(Some(box), step), 0, None)
         == Outcome(Some(box), step, 1)
    ensures Navigate(WORLD_AND_BOX, (g: nat) => if g == 0 then InfiniteGet(Some(world)) else Probe(None, step), 0, None)
         == Outcome(Some(world), 0.0, 0)
    ensures Navigate(WORLD_AND_BOX, (g: nat) => if g == 0 then InfiniteGet(Some(world)) else Probe(None, step), 1, None)
         == Outcome(Some(world), 0.0, 0)
  {
    WorldAndBoxWellFormed();
    var t := WORLD_AND_BOX;
    var inside := (g: nat) => if g == 0 then InfiniteGet(Some(world)) else Probe(Some(box), step);
    var outside := (g: nat) => if g == 0 then InfiniteGet(Some(world)) else Probe(None, step);
    assert Navigate(t, inside, 1, Some(0)) == Outcome(Some(box), step, 1);
    assert ScanDaughters(t, inside, 0, None, 0, 0.0) == Claimed(Outcome(Some(box), step, 1));
    assert Navigate(t, outside, 1, Some(0)) == Outcome(None, step, 1);
    assert ScanDaughters(t, outside, 0, None, 1, 0.0) == Unclaimed(0.0);
    assert ScanDaughters(t, outside, 0, None, 0, 0.0) == Unclaimed(0.0);
    assert ScanDaughters(t, outside, 0, Some(1), 1, 0.0) == Unclaimed(0.0);
    assert ScanDaughters(t, outside, 0, Some(1), 0, 0.0) == Unclaimed(0.0);
    assert Navigate(t, outside, 0, Some(1)) == Outcome(Some(world), 0.0, 0);
  }

  // ---------------------------------------------------------------------------
  // The per-context geometry record.

  /** The geometry part of the context's user data: the top geometry and the current one. */
  datatype UserData = UserData(top: Option<nat>, current: Option<nat>)

  predicate UserWellFormed(t: Tree, u: UserData) {
    (u.top.Some? ==> u.top.value < |t|) && (u.current.Some? ==> u.current.value < |t|)
  }

  /** The outcome of the medium callback, with the updated user data and state. */
  datatype MediumOutcome = MediumOutcome(medium: Option<Medium>, step: real, user: UserData, state: State)

  /**
   * `pumas_geometry_medium` as written: without any geometry, the medium handed
   * back is the uninitialised local `tmp`, here the parameter `stale`.
   */
  function GeometryMediumAsWritten(t: Tree, get: nat -> Probe, u: UserData, s: State, step: real, stale: Option<Medium>): (r: MediumOutcome)
    requires WellFormed(t) && UserWellFormed(t, u)
    ensures u.current.None? && u.top.None? ==> r.medium == stale
  {
    var start := if u.current.Some? then u.current else u.top;
    var s' := s.(geodetic := s.geodetic.(computed := false));
    if start.None? then MediumOutcome(stale, step, u, s')
    else
      var o := Navigate(t, get, start.value, None);
      MediumOutcome(o.medium, o.step, u.(current := Some(o.current)), s')
  }

  /**
   * `pumas_geometry_medium` with `tmp` initialised to NULL: navigation starts at
   * the current geometry, or the top one, and records where it ended; without any
   * geometry there is no medium and the step is left alone. The geodetic cache is
   * invalidated in every case.
   */
  function GeometryMedium(t: Tree, get: nat -> Probe, u: UserData, s: State, step: real): (r: MediumOutcome)
    requires WellFormed(t) && UserWellFormed(t, u)
    ensures UserWellFormed(t, r.user) && r.user.top == u.top
    ensures r.state == s.(geodetic := s.geodetic.(computed := false))
    ensures u.current.None? && u.top.None? ==> r.medium.None? && r.step == step && r.user == u
    ensures r.medium != Some(Transparent)
    ensures r.medium.Some? ==> r.user.current.Some? && get(r.user.current.value).medium == r.medium
    ensures var start := if u.current.Some? then u.current else u.top;
            start.Some? ==>
              var o := Navigate(t, get, start.value, None);
              r.medium == o.medium && r.step == o.step && r.user.current == Some(o.current)
  {
    var start := if u.current.Some? then u.current else u.top;
    var s' := s.(geodetic := s.geodetic.(computed := false));
    if start.None? then MediumOutcome(None, step, u, s')
    else
      var o := Navigate(t, get, start.value, None);
      MediumOutcome(o.medium, o.step, u.(current := Some(o.current)), s')
  }

  /** Without any geometry, the medium as written is whatever `tmp` held: a medium out of nowhere. */
  lemma GeometryMediumWithoutGeometry(t: Tree, get: nat -> Probe, s: State, step: real, stale: Medium)
    requires WellFormed(t)
    ensures GeometryMediumAsWritten(t, get, UserData(None, None), s, step, Some(stale)).medium == Some(stale)
    ensures GeometryMedium(t, get, UserData(None, None), s, step).medium.None?
  {
  }

  /** With a geometry, both versions agree. */
  lemma GeometryMediumAgrees(t: Tree, get: nat -> Probe, u: UserData, s: State, step: real, stale: Option<Medium>)
    requires WellFormed(t) && UserWellFormed(t, u) && (u.top.Some? || u.current.Some?)
    ensures GeometryMediumAsWritten(t, get, u, s, step, stale) == GeometryMedium(t, get, u, s, step)
  {
  }

  // ---------------------------------------------------------------------------
  // Reset and destruction.

  /** The order of a walk: a node before its daughters, or after them. */
  datatype Order = PreOrder | PostOrder

  /**
   * The nodes of the subtree of `g` whose hook is set (`hooked`), in the order a
   * recursive walk calls the hooks.
   */
  function Walk(t: Tree, g: nat, hooked: Node -> bool, order: Order): seq<nat>
    requires WellFormed(t) && g < |t|
    decreases |t| - g, 1, 0
  {
    var self := if hooked(t[g]) then [g] else [];
    var below := WalkDaughters(t, g, 0, hooked, order);
    if order == PreOrder then self + below else below + self
  }

  function WalkDaughters(t: Tree, g: nat, i: nat, hooked: Node -> bool, order: Order): seq<nat>
    requires WellFormed(t) && g < |t| && i <= |t[g].daughters|
    decreases |t| - g, 0, |t[g].daughters| - i
  {
    if i == |t[g].daughters| then []
    else
      assert NodeWellFormed(t, g);
      Walk(t, t[g].daughters[i], hooked, order) + WalkDaughters(t, g, i + 1, hooked, order)
  }

  predicate Distinct(s: seq<nat>) {
    forall a, b :: 0 <= a < b < |s| ==> s[a] != s[b]
  }

  lemma DistinctConcat(s1: seq<nat>, s2: seq<nat>)
    requires Distinct(s1) && Distinct(s2)
    requires forall x :: x in s1 ==> x !in s2
    ensures Distinct(s1 + s2)
  {
    forall a, b | 0 <= a < b < |s1 + s2|
      ensures (s1 + s2)[a] != (s1 + s2)[b]
    {
      if a < |s1| <= b {
        assert (s1 + s2)[a] in s1 && (s1 + s2)[b] in s2;
      }
    }
  }

  /**
   * A walk calls the hook of every node of the subtree that has one, and of no
   * other node, each exactly once; a pre-order walk starts with `g`, a post-order
   * walk ends with it.
   */
  lemma {:induction false} WalkCharacterised(t: Tree, g: nat, hooked: Node -> bool, order: Order)
    requires WellFormed(t) && g < |t|
    ensures var w := Walk(t, g, hooked, order);
            && (forall x: nat :: x in w <==> x < |t| && Descends(t, g, x) && hooked(t[x]))
            && Distinct(w)
            && (hooked(t[g]) && order == PreOrder ==> w[0] == g)
            && (hooked(t[g]) && order == PostOrder ==> w[|w| - 1] == g)
    decreases |t| - g, 2, 0
  {
    WalkBelowCharacterised(t, g, hooked, order);
    var self := if hooked(t[g]) then [g] else [];
    var below := WalkDaughters(t, g, 0, hooked, order);
    if order == PreOrder {
      DistinctConcat(self, below);
    } else {
      DistinctConcat(below, self);
    }
  }

  /** The daughters' walks together reach every hooked strict descendant of `g`, once each. */
  lemma {:induction false} WalkBelowCharacterised(t: Tree, g: nat, hooked: Node -> bool, order: Order)
    requires WellFormed(t) && g < |t|
    ensures var below := WalkDaughters(t, g, 0, hooked, order);
            && (forall x: nat :: x in below <==> x < |t| && x != g && Descends(t, g, x) && hooked(t[x]))
            && Distinct(below)
    decreases |t| - g, 1, 0
  {
    WalkDaughtersMembers(t, g, 0, hooked, order);
    WalkDaughtersDistinct(t, g, 0, hooked, order);
    var below := WalkDaughters(t, g, 0, hooked, order);
    forall x | x in below
      ensures x < |t| && x != g && Descends(t, g, x) && hooked(t[x])
    {
      var j: nat :| j < |t[g].daughters| && x in Walk(t, Daughter(t, g, j), hooked, order);
      assert NodeWellFormed(t, g);
      WalkCharacterised(t, Daughter(t, g, j), hooked, order);
      DescendsOrder(t, t[g].daughters[j], x);
      DescendsThroughMother(t, t[g].daughters[j], g, x);
    }
    forall x: nat | x < |t| && Descends(t, g, x) && hooked(t[x]) && x != g
      ensures x in below
    {
      DescendsSplit(t, g, x);
      var j :| 0 <= j < |t[g].daughters| && Descends(t, t[g].daughters[j], x);
      assert NodeWellFormed(t, g);
      WalkCharacterised(t, Daughter(t, g, j), hooked, order);
    }
  }

  /** The walk over the daughters from the `i`-th holds exactly the nodes of their walks. */
  lemma {:induction false} WalkDaughtersMembers(t: Tree, g: nat, i: nat, hooked: Node -> bool, order: Order)
    requires WellFormed(t) && g < |t| && i <= |t[g].daughters|
    ensures forall x: nat :: x in WalkDaughters(t, g, i, hooked, order) <==>
              exists j: nat :: i <= j < |t[g].daughters| && x in Walk(t, Daughter(t, g, j), hooked, order)
    decreases |t[g].daughters| - i
  {
    if i < |t[g].daughters| {
      var first := Walk(t, Daughter(t, g, i), hooked, order);
      var rest := WalkDaughters(t, g, i + 1, hooked, order);
      assert WalkDaughters(t, g, i, hooked, order) == first + rest;
      WalkDaughtersMembers(t, g, i + 1, hooked, order);
      forall x: nat | exists j: nat :: i <= j < |t[g].daughters| && x in Walk(t, Daughter(t, g, j), hooked, order)
        ensures x in first + rest
      {
        var j: nat :| i <= j < |t[g].daughters| && x in Walk(t, Daughter(t, g, j), hooked, order);
        if j > i {
          assert x in rest;
        }
      }
    }
  }

  /** The walk over the daughters from the `i`-th calls no node twice: sibling subtrees are disjoint. */
  lemma {:induction false} WalkDaughtersDistinct(t: Tree, g: nat, i: nat, hooked: Node -> bool, order: Order)
    requires WellFormed(t) && g < |t| && i <= |t[g].daughters|
    ensures Distinct(WalkDaughters(t, g, i, hooked, order))
    decreases |t| - g, 0, |t[g].daughters| - i
  {
    if i < |t[g].daughters| {
      var d := Daughter(t, g, i);
      var first := Walk(t, d, hooked, order);
      var rest := WalkDaughters(t, g, i + 1, hooked, order);
      assert WalkDaughters(t, g, i, hooked, order) == first + rest;
      WalkCharacterised(t, d, hooked, order);
      WalkDaughtersDistinct(t, g, i + 1, hooked, order);
      WalkDaughtersMembers(t, g, i + 1, hooked, order);
      LaterSiblingsDisjoint(t, g, i, hooked, order, rest);
      DistinctConcat(first, rest);
    }
  }

  /** The walk of daughter `i` shares no node with `rest`, the walks of the later daughters. */
  lemma {:induction false} LaterSiblingsDisjoint(t: Tree, g: nat, i: nat, hooked: Node -> bool, order: Order, rest: seq<nat>)
    requires WellFormed(t) && g < |t| && i < |t[g].daughters|
    requires forall x :: x in rest ==>
               exists j: nat :: i + 1 <= j < |t[g].daughters| && x in Walk(t, Daughter(t, g, j), hooked, order)
    ensures forall x :: x in Walk(t, Daughter(t, g, i), hooked, order) ==> x !in rest
    decreases |t| - g, 0, 0
  {
    var d := Daughter(t, g, i);
    WalkCharacterised(t, d, hooked, order);
    forall x | x in Walk(t, d, hooked, order) && x in rest
      ensures false
    {
      var j: nat :| i + 1 <= j < |t[g].daughters| && x in Walk(t, Daughter(t, g, j), hooked, order);
      WalkCharacterised(t, Daughter(t, g, j), hooked, order);
      SiblingsDisjoint(t, g, i, j, x);
    }
  }

  function HasReset(n: Node): bool { n.hasReset }
  function HasDestroy(n: Node): bool { n.hasDestroy }

  /** The outcome of a tree-wide operation: the new user data and the nodes whose hook is called, in order. */
  datatype TreeOutcome = TreeOutcome(user: UserData, calls: seq<nat>)

  /**
   * `pumas_geometry_reset`: the current geometry becomes the top one, and the
   * reset hooks of the whole tree are called, each node before its daughters.
   */
  function GeometryReset(t: Tree, u: UserData): (r: TreeOutcome)
    requires WellFormed(t) && UserWellFormed(t, u)
    ensures r.user == UserData(u.top, u.top)
    ensures u.top.None? ==> r.calls == []
    ensures u.top.Some? ==> r.calls == Walk(t, u.top.value, HasReset, PreOrder)
  {
    TreeOutcome(UserData(u.top, u.top), if u.top.Some? then Walk(t, u.top.value, HasReset, PreOrder) else [])
  }

  /**
   * `pumas_geometry_destroy`: the destroy hooks of the whole tree are called, each
   * node after its daughters, and both the top and the current geometry are
   * cleared.
   */
  function GeometryDestroy(t: Tree, u: UserData): (r: TreeOutcome)
    requires WellFormed(t) && UserWellFormed(t, u)
    ensures r.user == UserData(None, None)
    ensures u.top.None? ==> r.calls == []
    ensures u.top.Some? ==> r.calls == Walk(t, u.top.value, HasDestroy, PostOrder)
  {
    TreeOutcome(UserData(None, None), if u.top.Some? then Walk(t, u.top.value, HasDestroy, PostOrder) else [])
  }

  /**
   * A reset calls the hook of every node of the tree that has one, exactly once,
   * the top geometry's first; a destroy does the same with the top geometry's
   * last.
   */
  lemma ResetAndDestroyReachTheTree(t: Tree, u: UserData)
    requires WellFormed(t) && UserWellFormed(t, u) && u.top.Some?
    ensures var calls := GeometryReset(t, u).calls;
            && (forall x: nat :: x in calls <==> x < |t| && Descends(t, u.top.value, x) && t[x].hasReset)
            && Distinct(calls)
            && (t[u.top.value].hasReset ==> calls[0] == u.top.value)
    ensures var calls := GeometryDestroy(t, u).calls;
            && (forall x: nat :: x in calls <==> x < |t| && Descends(t, u.top.value, x) && t[x].hasDestroy)
            && Distinct(calls)
            && (t[u.top.value].hasDestroy ==> calls[|calls| - 1] == u.top.value)
  {
    WalkCharacterised(t, u.top.value, HasReset, PreOrder);
    WalkCharacterised(t, u.top.value, HasDestroy, PostOrder);
  }

  /** After a reset, the next navigation starts from the top geometry. */
  lemma ResetThenNavigate(t: Tree, get: nat -> Probe, u: UserData, s: State, step: real)
    requires WellFormed(t) && UserWellFormed(t, u) && u.top.Some?
    ensures GeometryMedium(t, get, GeometryReset(t, u).user, s, step).medium == Navigate(t, get, u.top.value, None).medium
  {
  }
}
