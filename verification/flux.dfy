/**
 * The tabulated reference flux of atmospheric muons: a grid over kinetic energy
 * (log-spaced) and the cosine of the zenith angle (linear), holding two values per
 * node, one per charge sign. Lookups interpolate linearly in the cosine, then
 * log-linearly (or linearly when a value is not positive) in the energy.
 */
module Flux {
  import opened Wrappers

  /**
   * `pumas_flux_tabulation`: `nK` energy bins between `kMin` and `kMax`, `nC`
   * cosine bins between `cMin` and `cMax`, and the node values, the two charges
   * of node (ik, ic) at `2 * (ic * nK + ik)` and the next index.
   */
  datatype Tabulation = Tabulation(nK: int, nC: int, kMin: real, kMax: real, cMin: real, cMax: real, data: seq<real>)

  /** The C library's logarithm and exponential, left abstract. */
  datatype LogExp = LogExp(log: real -> real, exp: real -> real)

  /** A usable table: non-empty grid, non-degenerate ranges, every node's pair present. */
  predicate Valid(t: Tabulation, m: LogExp) {
    && t.nK >= 1 && t.nC >= 1 && t.kMin != 0.0 && t.cMax != t.cMin
    && m.log(t.kMax / t.kMin) != 0.0
    && |t.data| >= 2 * t.nK * t.nC
  }

  /** The C cast `(int)x`: truncation toward zero. */
  function Trunc(x: real): (i: int)
    ensures x >= 0.0 ==> i as real <= x < i as real + 1.0
    ensures x < 0.0 ==> i as real - 1.0 < x <= i as real
  {
    if x >= 0.0 then x.Floor else -((-x).Floor)
  }

  /** A grid cell along one axis: the lower node, the upper node and the fraction between them. */
  datatype Cell = Cell(lower: int, upper: int, fraction: real)

  /**
   * The node search along one axis, from the coordinate `h` in bin units. Outside
   * [0, n] there is none. Nodes sit at bin centres: within half a bin of either
   * end the value is held at the end node, elsewhere the fraction is the distance
   * past the lower node.
   */
  function Locate(h: real, n: int): (r: Option<Cell>)
    requires n >= 1
    ensures r.Some? <==> 0.0 <= h <= n as real
    ensures r.Some? ==> 0 <= r.value.lower <= r.value.upper <= n - 1 && r.value.upper <= r.value.lower + 1
    ensures r.Some? ==> 0.0 <= r.value.fraction < 1.0
    ensures r.Some? && r.value.fraction > 0.0 ==>
              r.value.upper == r.value.lower + 1 && r.value.lower as real + 0.5 + r.value.fraction == h
    ensures r.Some? && 0.5 <= h <= n as real - 0.5 ==> r.value.lower as real + 0.5 + r.value.fraction == h
  {
    if h < 0.0 || h > n as real then None
    else
      var x := h - 0.5;
      var i := Trunc(x);
      var fraction := if x < 0.0 || x > (n - 1) as real then 0.0 else x - i as real;
      Some(Cell(i, if i < n - 1 then i + 1 else n - 1, fraction))
  }

  /** The position of value `component` of node (ik, ic) in the data. */
  function Offset(t: Tabulation, ik: int, ic: int, component: int): (o: int)
    requires t.nK >= 1 && t.nC >= 1 && |t.data| >= 2 * t.nK * t.nC
    requires 0 <= ik < t.nK && 0 <= ic < t.nC && 0 <= component <= 1
    ensures 0 <= o < |t.data|
  {
    NodeInTable(t.nK, t.nC, ik, ic);
    2 * (ic * t.nK + ik) + component
  }

  lemma NodeInTable(nK: int, nC: int, ik: int, ic: int)
    requires 0 <= ik < nK && 0 <= ic < nC
    ensures 0 <= ic * nK + ik < nK * nC
  {
    assert ic * nK <= (nC - 1) * nK;
  }

  /** Linear interpolation from `a` (at 0) to `b` (at 1). */
  function Lerp(a: real, b: real, h: real): real {
    a * (1.0 - h) + b * h
  }

  /** With a fraction in [0, 1], a linear interpolation stays between its ends. */
  lemma LerpBetween(a: real, b: real, h: real)
    requires 0.0 <= h <= 1.0
    ensures (a <= b ==> a <= Lerp(a, b, h) <= b) && (b <= a ==> b <= Lerp(a, b, h) <= a)
  {
    assert Lerp(a, b, h) == a + (b - a) * h == b - (b - a) * (1.0 - h);
    if a <= b {
      NonNegativeProduct(b - a, h);
      NonNegativeProduct(b - a, 1.0 - h);
    } else {
      NonNegativeProduct(a - b, h);
      NonNegativeProduct(a - b, 1.0 - h);
    }
  }

  lemma NonNegativeProduct(x: real, y: real)
    requires x >= 0.0 && y >= 0.0
    ensures x * y >= 0.0
  {
  }

  /**
   * One charge component at cell (k, c): linear in the cosine at both energy
   * nodes, then log-linear in the energy unless one of the two is not positive.
   */
  function Component(t: Tabulation, k: Cell, c: Cell, component: int, m: LogExp): real
    requires t.nK >= 1 && t.nC >= 1 && |t.data| >= 2 * t.nK * t.nC
    requires 0 <= k.lower <= k.upper < t.nK && 0 <= c.lower <= c.upper < t.nC && 0 <= component <= 1
  {
    var g0 := Lerp(t.data[Offset(t, k.lower, c.lower, component)], t.data[Offset(t, k.lower, c.upper, component)], c.fraction);
    var g1 := Lerp(t.data[Offset(t, k.upper, c.lower, component)], t.data[Offset(t, k.upper, c.upper, component)], c.fraction);
    if g0 <= 0.0 || g1 <= 0.0 then Lerp(g0, g1, k.fraction)
    else m.exp(Lerp(m.log(g0), m.log(g1), k.fraction))
  }

  /** The two cells of a lookup, or `None` outside the table. */
  function Cells(t: Tabulation, k: real, c: real, m: LogExp): (r: Option<(Cell, Cell)>)
    requires Valid(t, m)
    ensures r.Some? ==> 0 <= r.value.0.lower <= r.value.0.upper < t.nK && 0 <= r.value.1.lower <= r.value.1.upper < t.nC
    ensures r.Some? ==> 0.0 <= r.value.0.fraction < 1.0 && 0.0 <= r.value.1.fraction < 1.0
    ensures r.Some? <==>
              && 0.0 <= m.log(k / t.kMin) / (m.log(t.kMax / t.kMin) / t.nK as real) <= t.nK as real
              && 0.0 <= (c - t.cMin) / ((t.cMax - t.cMin) / t.nC as real) <= t.nC as real
  {
    var dlk := m.log(t.kMax / t.kMin) / t.nK as real;
    var dc := (t.cMax - t.cMin) / t.nC as real;
    var kc := Locate(m.log(k / t.kMin) / dlk, t.nK);
    var cc := Locate((c - t.cMin) / dc, t.nC);
    if kc.None? || cc.None? then None else Some((kc.value, cc.value))
  }

  /**
   * `pumas_flux_tabulation_get`: 0 outside the table; otherwise the first
   * component for a positive charge, the second for a negative one, and their sum
   * for a neutral one.
   */
  function FluxTabulationGet(t: Tabulation, k: real, c: real, charge: real, m: LogExp): (f: real)
    requires Valid(t, m)
    ensures Cells(t, k, c, m).None? ==> f == 0.0
    ensures Cells(t, k, c, m).Some? ==>
              var (kc, cc) := Cells(t, k, c, m).value;
              f == (if charge >= 0.0 then Component(t, kc, cc, 0, m) else 0.0)
                 + (if charge <= 0.0 then Component(t, kc, cc, 1, m) else 0.0)
  {
    var cells := Cells(t, k, c, m);
    if cells.None? then 0.0
    else
      var (kc, cc) := cells.value;
      var f0 := if charge >= 0.0 then Component(t, kc, cc, 0, m) else 0.0;
      var f1 := if charge <= 0.0 then Component(t, kc, cc, 1, m) else 0.0;
      f0 + f1
  }

  /** Only the sign of the charge matters, and a neutral lookup is the sum of both signs. */
  lemma ChargeSign(t: Tabulation, k: real, c: real, charge: real, m: LogExp)
    requires Valid(t, m)
    ensures charge > 0.0 ==> FluxTabulationGet(t, k, c, charge, m) == FluxTabulationGet(t, k, c, 1.0, m)
    ensures charge < 0.0 ==> FluxTabulationGet(t, k, c, charge, m) == FluxTabulationGet(t, k, c, -1.0, m)
    ensures FluxTabulationGet(t, k, c, 0.0, m) == FluxTabulationGet(t, k, c, 1.0, m) + FluxTabulationGet(t, k, c, -1.0, m)
  {
  }

  /** At a node (both fractions 0), a component is the tabulated value, in either branch. */
  lemma ComponentAtNode(t: Tabulation, k: Cell, c: Cell, component: int, m: LogExp)
    requires t.nK >= 1 && t.nC >= 1 && |t.data| >= 2 * t.nK * t.nC
    requires 0 <= k.lower <= k.upper < t.nK && 0 <= c.lower <= c.upper < t.nC && 0 <= component <= 1
    requires k.fraction == 0.0 && c.fraction == 0.0
    requires forall x :: x > 0.0 ==> m.exp(m.log(x)) == x
    ensures Component(t, k, c, component, m) == t.data[Offset(t, k.lower, c.lower, component)]
  {
  }

  /**
   * When the linear branch is taken, the component lies between the least and the
   * greatest of the four corner values.
   */
  lemma LinearComponentBounded(t: Tabulation, k: Cell, c: Cell, component: int, m: LogExp, lo: real, hi: real)
    requires t.nK >= 1 && t.nC >= 1 && |t.data| >= 2 * t.nK * t.nC
    requires 0 <= k.lower <= k.upper < t.nK && 0 <= c.lower <= c.upper < t.nC && 0 <= component <= 1
    requires 0.0 <= k.fraction <= 1.0 && 0.0 <= c.fraction <= 1.0
    requires forall ik, ic :: ik in {k.lower, k.upper} && ic in {c.lower, c.upper} ==>
               lo <= t.data[Offset(t, ik, ic, component)] <= hi
    requires
      var g0 := Lerp(t.data[Offset(t, k.lower, c.lower, component)], t.data[Offset(t, k.lower, c.upper, component)], c.fraction);
      var g1 := Lerp(t.data[Offset(t, k.upper, c.lower, component)], t.data[Offset(t, k.upper, c.upper, component)], c.fraction);
      g0 <= 0.0 || g1 <= 0.0
    ensures lo <= Component(t, k, c, component, m) <= hi
  {
    var a0, b0 := t.data[Offset(t, k.lower, c.lower, component)], t.data[Offset(t, k.lower, c.upper, component)];
    var a1, b1 := t.data[Offset(t, k.upper, c.lower, component)], t.data[Offset(t, k.upper, c.upper, component)];
    LerpBetween(a0, b0, c.fraction);
    LerpBetween(a1, b1, c.fraction);
    var g0, g1 := Lerp(a0, b0, c.fraction), Lerp(a1, b1, c.fraction);
    LerpBetween(g0, g1, k.fraction);
  }

  /** Coordinates past either end of the energy range give no flux. */
  lemma OutsideEnergyRange(t: Tabulation, k: real, c: real, charge: real, m: LogExp)
    requires Valid(t, m)
    requires m.log(k / t.kMin) / (m.log(t.kMax / t.kMin) / t.nK as real) > t.nK as real
    ensures FluxTabulationGet(t, k, c, charge, m) == 0.0
  {
  }
}
