/**
 The depth row of the rewritten HMD projection, over the reals.  The application describes
 its depth buffer by XR_KHR_composition_layer_depth: distance nearZ is stored as minDepth
 and distance farZ as maxDepth, and either plane may be at infinity.
 */
module DepthProjection {
  /** The largest float counts as infinity. */
  datatype Plane = Finite(z: real) | Infinite

  datatype DepthInfo = DepthInfo(nearZ: Plane, farZ: Plane, minDepth: real, maxDepth: real)

  /** Entries 10 and 14 of the projection matrix. */
  datatype DepthRow = DepthRow(m10: real, m14: real)

  predicate IsCloser(a: Plane, b: Plane) {
    a.Finite? && (b.Infinite? || a.z < b.z)
  }

  /** What the extension asks of an application. */
  predicate Conforming(d: DepthInfo) {
    && (d.nearZ.Finite? ==> d.nearZ.z > 0.0) && (d.farZ.Finite? ==> d.farZ.z > 0.0)
    && d.nearZ != d.farZ
    && d.minDepth < d.maxDepth
  }

  predicate HasReversedDepth(d: DepthInfo) {
    IsCloser(d.farZ, d.nearZ)
  }

  function Rewritten(d: DepthInfo): DepthRow
    requires Conforming(d)
  {
    var near, far := if HasReversedDepth(d) then d.farZ else d.nearZ, if HasReversedDepth(d) then d.nearZ else d.farZ;
    if far.Infinite? then
      DepthRow(0.0, near.z)
    else
      var n, f := d.nearZ.z, d.farZ.z;
      DepthRow(-(f * d.maxDepth - n * d.minDepth) / (f - n), -(f * n * (d.maxDepth - d.minDepth)) / (f - n))
  }

  /** The depth of a point at a distance in front of the eye, after the division by w. */
  function DepthAt(row: DepthRow, distance: real): real
    requires distance > 0.0
  {
    (row.m10 * (-distance) + row.m14) / distance
  }

  /** At infinity the depth tends to the negated entry 10. */
  function DepthAtPlane(row: DepthRow, p: Plane): real
    requires p.Finite? ==> p.z > 0.0
  {
    if p.Finite? then DepthAt(row, p.z) else -row.m10
  }

  /** With two finite planes the rewritten row stores nearZ as minDepth and farZ as maxDepth. */
  lemma FinitePlanesAreMapped(d: DepthInfo)
    requires Conforming(d) && d.nearZ.Finite? && d.farZ.Finite?
    ensures DepthAtPlane(Rewritten(d), d.nearZ) == d.minDepth
    ensures DepthAtPlane(Rewritten(d), d.farZ) == d.maxDepth
  {
  }

  lemma DepthDifference(d: DepthInfo, a: real, b: real)
    requires Conforming(d) && d.nearZ.Finite? && d.farZ.Finite? && a > 0.0 && b > 0.0
    ensures var n, f := d.nearZ.z, d.farZ.z;
            (DepthAt(Rewritten(d), b) - DepthAt(Rewritten(d), a)) * (a * b * (f - n))
            == f * n * (d.maxDepth - d.minDepth) * (b - a)
  {
  }

  lemma SignOfFactor(x: real, k: real, p: real)
    requires x * k == p && p > 0.0
    ensures k > 0.0 ==> x > 0.0
    ensures k < 0.0 ==> x < 0.0
  {
  }

  lemma PositiveProduct(a: real, b: real)
    requires a > 0.0 && b > 0.0
    ensures a * b > 0.0
  {
  }

  /** Depth is strictly monotone in the distance: it falls when Z is reversed and rises otherwise. */
  lemma DepthIsMonotone(d: DepthInfo, a: real, b: real)
    requires Conforming(d) && d.nearZ.Finite? && d.farZ.Finite? && 0.0 < a < b
    ensures HasReversedDepth(d) ==> DepthAt(Rewritten(d), a) > DepthAt(Rewritten(d), b)
    ensures !HasReversedDepth(d) ==> DepthAt(Rewritten(d), a) < DepthAt(Rewritten(d), b)
  {
    var n, f, w := d.nearZ.z, d.farZ.z, d.maxDepth - d.minDepth;
    DepthDifference(d, a, b);
    PositiveProduct(f, n);
    PositiveProduct(f * n, w);
    PositiveProduct(f * n * w, b - a);
    PositiveProduct(a, b);
    var k := a * b * (f - n);
    if f > n {
      PositiveProduct(a * b, f - n);
    } else {
      PositiveProduct(a * b, n - f);
      assert k == -(a * b * (n - f));
    }
    SignOfFactor(DepthAt(Rewritten(d), b) - DepthAt(Rewritten(d), a), k, f * n * w * (b - a));
  }

  /** The distances between the two planes are exactly those with a depth between minDepth and maxDepth. */
  lemma DepthRangeIsPlaneRange(d: DepthInfo, distance: real)
    requires Conforming(d) && d.nearZ.Finite? && d.farZ.Finite? && distance > 0.0
    ensures d.minDepth <= DepthAt(Rewritten(d), distance) <= d.maxDepth
            <==> if HasReversedDepth(d) then d.farZ.z <= distance <= d.nearZ.z else d.nearZ.z <= distance <= d.farZ.z
  {
    FinitePlanesAreMapped(d);
    var n, f := d.nearZ.z, d.farZ.z;
    if distance < n { DepthIsMonotone(d, distance, n); }
    if n < distance { DepthIsMonotone(d, n, distance); }
    if distance < f { DepthIsMonotone(d, distance, f); }
    if f < distance { DepthIsMonotone(d, f, distance); }
  }

  /** The depth at infinity is the limit of the depths at growing distances. */
  lemma InfinityIsALimit(row: DepthRow, distance: real, epsilon: real)
    requires epsilon > 0.0 && distance > 0.0 && distance * epsilon > row.m14 > -(distance * epsilon)
    ensures -epsilon < DepthAt(row, distance) - DepthAtPlane(row, Infinite) < epsilon
  {
  }

  lemma DividedBySelf(x: real)
    requires x != 0.0
    ensures (0.0 * (-x) + x) / x == 1.0
  {
  }

  /** The two entries: products of the planes and the depth range, or the closest plane alone. */
  lemma RewrittenEntries(d: DepthInfo)
    requires Conforming(d)
    ensures d.nearZ.Finite? && d.farZ.Finite? ==>
              var n, f, row := d.nearZ.z, d.farZ.z, Rewritten(d);
              && row.m10 * (f - n) == n * d.minDepth - f * d.maxDepth
              && row.m14 * (f - n) == f * n * d.minDepth - f * n * d.maxDepth
    ensures d.farZ.Infinite? ==> Rewritten(d) == DepthRow(0.0, d.nearZ.z)
    ensures d.nearZ.Infinite? ==> Rewritten(d) == DepthRow(0.0, d.farZ.z)
  {
  }

  /** With a plane at infinity a point gets the distance of the other plane over its own, reversed or not. */
  lemma InfiniteDepth(d: DepthInfo, distance: real)
    requires Conforming(d) && distance > 0.0
    ensures d.farZ.Infinite? ==> DepthAt(Rewritten(d), distance) == d.nearZ.z / distance
    ensures d.nearZ.Infinite? ==> DepthAt(Rewritten(d), distance) == d.farZ.z / distance
  {
    RewrittenEntries(d);
  }

  /**
   With a plane at infinity the row ignores minDepth, maxDepth and the order of the planes:
   it is right exactly for a reversed buffer with the full depth range.
   */
  lemma InfinitePlanesAreMappedIff(d: DepthInfo)
    requires Conforming(d) && (d.nearZ.Infinite? || d.farZ.Infinite?)
    ensures DepthAtPlane(Rewritten(d), d.nearZ) == d.minDepth && DepthAtPlane(Rewritten(d), d.farZ) == d.maxDepth
            <==> HasReversedDepth(d) && d.minDepth == 0.0 && d.maxDepth == 1.0
  {
    var closest := if HasReversedDepth(d) then d.farZ.z else d.nearZ.z;
    assert Rewritten(d) == DepthRow(0.0, closest);
    DividedBySelf(closest);
    assert DepthAt(Rewritten(d), closest) == 1.0;
    assert DepthAtPlane(Rewritten(d), Infinite) == 0.0;
  }
}
