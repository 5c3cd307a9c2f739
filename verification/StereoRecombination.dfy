/**
 Applying a stereo calibration: the two cameras are moved apart to the newly measured
 baseline around the midpoint they had before. Exact vector algebra over the reals, with
 the rotation halfway from left to right as a given.
 */
module StereoRecombination {
  datatype Vec = Vec(x: real, y: real, z: real) {
    function Plus(v: Vec): Vec { Vec(x + v.x, y + v.y, z + v.z) }
    function Minus(v: Vec): Vec { Vec(x - v.x, y - v.y, z - v.z) }
    function Times(k: real): Vec { Vec(x * k, y * k, z * k) }
    function Dot(v: Vec): real { x * v.x + y * v.y + z * v.z }
  }

  datatype Mat = Mat(row0: Vec, row1: Vec, row2: Vec) {
    function Apply(v: Vec): Vec { Vec(row0.Dot(v), row1.Dot(v), row2.Dot(v)) }
    function Column0(): Vec { Vec(row0.x, row1.x, row2.x) }
    function Column1(): Vec { Vec(row0.y, row1.y, row2.y) }
    function Column2(): Vec { Vec(row0.z, row1.z, row2.z) }
  }

  /** The columns are unit vectors at right angles. */
  predicate IsOrthonormal(m: Mat) {
    var a, b, c := m.Column0(), m.Column1(), m.Column2();
    a.Dot(a) == b.Dot(b) == c.Dot(c) == 1.0 && a.Dot(b) == b.Dot(c) == a.Dot(c) == 0.0
  }

  /** The extrinsic translations of the two cameras; a camera is at its negated translation. */
  datatype Rig = Rig(left: Vec, right: Vec) {
    function PositionLeft(): Vec { left.Times(-1.0) }
    function PositionRight(): Vec { right.Times(-1.0) }
    function LeftToRight(): Vec { PositionRight().Minus(PositionLeft()) }
    function Midpoint(): Vec { PositionLeft().Plus(PositionRight()).Times(0.5) }
  }

  function ApplyStereoCalibration(rig: Rig, rotation: Mat, translation: Vec): Rig {
    var prevLeft, prevRight := rig.PositionLeft(), rig.PositionRight();
    var average := prevLeft.Plus(prevRight.Minus(prevLeft).Times(0.5));
    var rightWorld := rotation.Apply(translation.Minus(prevLeft));
    var averageWorld := rotation.Apply(translation.Times(0.5).Minus(prevLeft));
    var averageToRight := rightWorld.Minus(averageWorld);
    Rig(average.Minus(averageToRight).Times(-1.0), average.Plus(averageToRight).Times(-1.0))
  }

  /** Whatever the matrix, the old midpoint stays and the eyes are one rotated translation apart. */
  lemma MidpointAndBaseline(rig: Rig, rotation: Mat, translation: Vec)
    ensures ApplyStereoCalibration(rig, rotation, translation).Midpoint() == rig.Midpoint()
    ensures ApplyStereoCalibration(rig, rotation, translation).LeftToRight() == rotation.Apply(translation)
  {
  }

  /** The same on the stored numbers, which are negated positions. */
  lemma StoredTranslations(rig: Rig, rotation: Mat, t: Vec)
    ensures var after, m := ApplyStereoCalibration(rig, rotation, t), rotation;
            && after.left.x + after.right.x == rig.left.x + rig.right.x
            && after.left.y + after.right.y == rig.left.y + rig.right.y
            && after.left.z + after.right.z == rig.left.z + rig.right.z
            && after.left.x - after.right.x == m.row0.x * t.x + m.row0.y * t.y + m.row0.z * t.z
            && after.left.y - after.right.y == m.row1.x * t.x + m.row1.y * t.y + m.row1.z * t.z
            && after.left.z - after.right.z == m.row2.x * t.x + m.row2.y * t.y + m.row2.z * t.z
  {
    MidpointAndBaseline(rig, rotation, t);
  }

  /** Two rigs with the same midpoint and the same baseline are the same. */
  lemma RigIsItsMidpointAndBaseline(a: Rig, b: Rig)
    requires a.Midpoint() == b.Midpoint() && a.LeftToRight() == b.LeftToRight()
    ensures a == b
  {
  }

  /** The old calibration matters by its midpoint only; applying the same calibration again changes nothing. */
  lemma OnlyTheMidpointMatters(a: Rig, b: Rig, rotation: Mat, translation: Vec)
    ensures a.Midpoint() == b.Midpoint()
            <==> ApplyStereoCalibration(a, rotation, translation) == ApplyStereoCalibration(b, rotation, translation)
    ensures var a' := ApplyStereoCalibration(a, rotation, translation);
            ApplyStereoCalibration(a', rotation, translation) == a'
  {
    var a', b' := ApplyStereoCalibration(a, rotation, translation), ApplyStereoCalibration(b, rotation, translation);
    MidpointAndBaseline(a, rotation, translation);
    MidpointAndBaseline(b, rotation, translation);
    MidpointAndBaseline(a', rotation, translation);
    if a.Midpoint() == b.Midpoint() { RigIsItsMidpointAndBaseline(a', b'); }
    RigIsItsMidpointAndBaseline(ApplyStereoCalibration(a', rotation, translation), a');
  }

  /** Any linear map is the sum of its columns, and so lengths come from the products of columns. */
  lemma SquaredLength(m: Mat, v: Vec)
    ensures var a, b, c := m.Column0(), m.Column1(), m.Column2();
            m.Apply(v).Dot(m.Apply(v))
            == v.x * v.x * a.Dot(a) + v.y * v.y * b.Dot(b) + v.z * v.z * c.Dot(c)
               + 2.0 * (v.x * v.y * a.Dot(b) + v.y * v.z * b.Dot(c) + v.x * v.z * a.Dot(c))
  {
  }

  ghost predicate KeepsEveryDistance(rotation: Mat) {
    forall rig: Rig, translation: Vec ::
      var baseline := ApplyStereoCalibration(rig, rotation, translation).LeftToRight();
      baseline.Dot(baseline) == translation.Dot(translation)
  }

  lemma DistanceAfter(rig: Rig, rotation: Mat, translation: Vec)
    requires IsOrthonormal(rotation)
    ensures var baseline := ApplyStereoCalibration(rig, rotation, translation).LeftToRight();
            baseline.Dot(baseline) == translation.Dot(translation)
  {
  }

  lemma KeptDistance(rotation: Mat, v: Vec)
    requires KeepsEveryDistance(rotation)
    ensures rotation.Apply(v).Dot(rotation.Apply(v)) == v.Dot(v)
  {
    var rig := Rig(v, v);
    MidpointAndBaseline(rig, rotation, v);
    var baseline := ApplyStereoCalibration(rig, rotation, v).LeftToRight();
    assert baseline.Dot(baseline) == v.Dot(v);
  }

  /**
   The eye distance becomes exactly the measured baseline, for every calibration, if and
   only if the matrix is orthonormal.
   */
  lemma EyeDistanceIsBaselineIff(rotation: Mat)
    ensures KeepsEveryDistance(rotation) <==> IsOrthonormal(rotation)
  {
    if IsOrthonormal(rotation) {
      forall rig: Rig, translation: Vec
        ensures var baseline := ApplyStereoCalibration(rig, rotation, translation).LeftToRight();
                baseline.Dot(baseline) == translation.Dot(translation)
      {
        DistanceAfter(rig, rotation, translation);
      }
    }
    if KeepsEveryDistance(rotation) {
      KeptUnit(rotation, Vec(1.0, 0.0, 0.0));
      KeptUnit(rotation, Vec(0.0, 1.0, 0.0));
      KeptUnit(rotation, Vec(0.0, 0.0, 1.0));
      KeptUnit(rotation, Vec(1.0, 1.0, 0.0));
      KeptUnit(rotation, Vec(0.0, 1.0, 1.0));
      KeptUnit(rotation, Vec(1.0, 0.0, 1.0));
    }
  }

  lemma KeptUnit(m: Mat, v: Vec)
    requires KeepsEveryDistance(m)
    ensures var a, b, c := m.Column0(), m.Column1(), m.Column2();
            v.x * v.x * a.Dot(a) + v.y * v.y * b.Dot(b) + v.z * v.z * c.Dot(c)
            + 2.0 * (v.x * v.y * a.Dot(b) + v.y * v.z * b.Dot(c) + v.x * v.z * a.Dot(c)) == v.Dot(v)
  {
    KeptDistance(m, v);
    SquaredLength(m, v);
  }

  /** The square of the reported calibration delta: the left camera's move along x enters three times. */
  function SquaredDelta(before: Rig, after: Rig): real {
    var diff := before.PositionLeft().Minus(after.PositionLeft());
    diff.x * diff.x + diff.x * diff.x + diff.x * diff.x
  }

  /** Applying a calibration moves the left camera by half of what the baseline changes. */
  lemma LeftCameraMove(rig: Rig, rotation: Mat, translation: Vec)
    ensures var after := ApplyStereoCalibration(rig, rotation, translation);
            rig.PositionLeft().Minus(after.PositionLeft())
            == rotation.Apply(translation).Minus(rig.LeftToRight()).Times(0.5)
  {
    MidpointAndBaseline(rig, rotation, translation);
  }

  /**
   The delta reported for a calibration is half the change of the baseline along x, times
   the root of three.  It is how far the left camera moved exactly when the baseline changes
   as much along x as it does on average, in squares, along y and z.
   */
  lemma DeltaIsDistanceIff(rig: Rig, rotation: Mat, translation: Vec)
    ensures var after := ApplyStereoCalibration(rig, rotation, translation);
            var move := rig.PositionLeft().Minus(after.PositionLeft());
            var change := rotation.Apply(translation).Minus(rig.LeftToRight());
            && SquaredDelta(rig, after) == 0.75 * (change.x * change.x)
            && (SquaredDelta(rig, after) == move.Dot(move)
                <==> change.x * change.x == (change.y * change.y + change.z * change.z) / 2.0)
  {
    LeftCameraMove(rig, rotation, translation);
    SquaredHalf(rotation.Apply(translation).Minus(rig.LeftToRight()));
  }

  lemma SquaredHalf(v: Vec)
    ensures var h := v.Times(0.5);
            && h.x * h.x == 0.25 * (v.x * v.x) && h.y * h.y == 0.25 * (v.y * v.y) && h.z * h.z == 0.25 * (v.z * v.z)
  {
  }

  /** A calibration that moves the left camera along y or z alone reports no move at all. */
  lemma DeltaMissesSidewaysMoves(before: Rig, after: Rig)
    requires before.left.x == after.left.x
    ensures SquaredDelta(before, after) == 0.0
  {
  }

  // Products are named, so that sums of them are compared product by product.

  function Product(a: real, b: real): real { a * b }

  function Product3(a: real, b: real, c: real): real { a * b * c }

  /** Rotations as quaternions. */
  datatype Quat = Quat(w: real, x: real, y: real, z: real) {
    function Times(q: Quat): Quat {
      Quat(Product(w, q.w) - Product(x, q.x) - Product(y, q.y) - Product(z, q.z),
           Product(w, q.x) + Product(x, q.w) + Product(y, q.z) - Product(z, q.y),
           Product(w, q.y) - Product(x, q.z) + Product(y, q.w) + Product(z, q.x),
           Product(w, q.z) + Product(x, q.y) - Product(y, q.x) + Product(z, q.w))
    }
    function Inverse(): Quat { Quat(w, -x, -y, -z) }
    function Norm(): real { Product(w, w) + Product(x, x) + Product(y, y) + Product(z, z) }
  }

  const IDENTITY := Quat(1.0, 0.0, 0.0, 0.0)

  /** The product of quaternions, written out. */
  lemma HamiltonProduct(p: Quat, q: Quat)
    ensures p.Times(q) == Quat(p.w * q.w - p.x * q.x - p.y * q.y - p.z * q.z,
                               p.w * q.x + p.x * q.w + p.y * q.z - p.z * q.y,
                               p.w * q.y - p.x * q.z + p.y * q.w + p.z * q.x,
                               p.w * q.z + p.x * q.y - p.y * q.x + p.z * q.w)
    ensures p.Inverse() == Quat(p.w, -p.x, -p.y, -p.z)
  {
  }

  lemma SumTimes(t: real, a: real, b: real, c: real, d: real, k: real)
    requires t == a + b + c + d
    ensures Product(t, k) == Product(a, k) + Product(b, k) + Product(c, k) + Product(d, k)
    ensures Product(k, t) == Product(k, a) + Product(k, b) + Product(k, c) + Product(k, d)
  {
    assert Product(a + b + c + d, k) == Product(a, k) + Product(b, k) + Product(c, k) + Product(d, k);
  }

  lemma ProductTimes(a: real, b: real, k: real)
    ensures Product(Product(a, b), k) == Product3(a, b, k) && Product(-Product(a, b), k) == -Product3(a, b, k)
    ensures Product(k, Product(a, b)) == Product3(k, a, b) && Product(k, -Product(a, b)) == -Product3(k, a, b)
  {
  }

  // The parts of a product times a number, multiplied out.

  lemma ScaledW(p: Quat, q: Quat, k: real)
    ensures Product(p.Times(q).w, k)
            == Product3(p.w, q.w, k) - Product3(p.x, q.x, k) - Product3(p.y, q.y, k) - Product3(p.z, q.z, k)
    ensures Product(k, p.Times(q).w)
            == Product3(k, p.w, q.w) - Product3(k, p.x, q.x) - Product3(k, p.y, q.y) - Product3(k, p.z, q.z)
  {
    SumTimes(p.Times(q).w, Product(p.w, q.w), -Product(p.x, q.x), -Product(p.y, q.y), -Product(p.z, q.z), k);
    ProductTimes(p.w, q.w, k);
    ProductTimes(p.x, q.x, k);
    ProductTimes(p.y, q.y, k);
    ProductTimes(p.z, q.z, k);
  }

  lemma ScaledX(p: Quat, q: Quat, k: real)
    ensures Product(p.Times(q).x, k)
            == Product3(p.w, q.x, k) + Product3(p.x, q.w, k) + Product3(p.y, q.z, k) - Product3(p.z, q.y, k)
    ensures Product(k, p.Times(q).x)
            == Product3(k, p.w, q.x) + Product3(k, p.x, q.w) + Product3(k, p.y, q.z) - Product3(k, p.z, q.y)
  {
    SumTimes(p.Times(q).x, Product(p.w, q.x), Product(p.x, q.w), Product(p.y, q.z), -Product(p.z, q.y), k);
    ProductTimes(p.w, q.x, k);
    ProductTimes(p.x, q.w, k);
    ProductTimes(p.y, q.z, k);
    ProductTimes(p.z, q.y, k);
  }

  lemma ScaledY(p: Quat, q: Quat, k: real)
    ensures Product(p.Times(q).y, k)
            == Product3(p.w, q.y, k) - Product3(p.x, q.z, k) + Product3(p.y, q.w, k) + Product3(p.z, q.x, k)
    ensures Product(k, p.Times(q).y)
            == Product3(k, p.w, q.y) - Product3(k, p.x, q.z) + Product3(k, p.y, q.w) + Product3(k, p.z, q.x)
  {
    SumTimes(p.Times(q).y, Product(p.w, q.y), -Product(p.x, q.z), Product(p.y, q.w), Product(p.z, q.x), k);
    ProductTimes(p.w, q.y, k);
    ProductTimes(p.x, q.z, k);
    ProductTimes(p.y, q.w, k);
    ProductTimes(p.z, q.x, k);
  }

  lemma ScaledZ(p: Quat, q: Quat, k: real)
    ensures Product(p.Times(q).z, k)
            == Product3(p.w, q.z, k) + Product3(p.x, q.y, k) - Product3(p.y, q.x, k) + Product3(p.z, q.w, k)
    ensures Product(k, p.Times(q).z)
            == Product3(k, p.w, q.z) + Product3(k, p.x, q.y) - Product3(k, p.y, q.x) + Product3(k, p.z, q.w)
  {
    SumTimes(p.Times(q).z, Product(p.w, q.z), Product(p.x, q.y), -Product(p.y, q.x), Product(p.z, q.w), k);
    ProductTimes(p.w, q.z, k);
    ProductTimes(p.x, q.y, k);
    ProductTimes(p.y, q.x, k);
    ProductTimes(p.z, q.w, k);
  }

  /** Renaming the axes in turn. */
  function Turned(p: Quat): Quat {
    Quat(p.w, p.y, p.z, p.x)
  }

  lemma TimesTurned(p: Quat, q: Quat)
    ensures Turned(p).Times(Turned(q)) == Turned(p.Times(q))
  {
  }

  lemma AssociativeReal(p: Quat, q: Quat, r: Quat)
    ensures p.Times(q).Times(r).w == p.Times(q.Times(r)).w
  {
    ScaledW(p, q, r.w);
    ScaledX(p, q, r.x);
    ScaledY(p, q, r.y);
    ScaledZ(p, q, r.z);
    ScaledW(q, r, p.w);
    ScaledX(q, r, p.x);
    ScaledY(q, r, p.y);
    ScaledZ(q, r, p.z);
  }

  lemma AssociativeAlongX(p: Quat, q: Quat, r: Quat)
    ensures p.Times(q).Times(r).x == p.Times(q.Times(r)).x
  {
    ScaledW(p, q, r.x);
    ScaledX(p, q, r.w);
    ScaledY(p, q, r.z);
    ScaledZ(p, q, r.y);
    ScaledX(q, r, p.w);
    ScaledW(q, r, p.x);
    ScaledZ(q, r, p.y);
    ScaledY(q, r, p.z);
  }

  /** What holds along x holds along the next axis. */
  lemma TurnedTwice(p: Quat, q: Quat, r: Quat)
    ensures Turned(p).Times(Turned(q)).Times(Turned(r)) == Turned(p.Times(q).Times(r))
    ensures Turned(p).Times(Turned(q).Times(Turned(r))) == Turned(p.Times(q.Times(r)))
  {
    TimesTurned(p, q);
    TimesTurned(p.Times(q), r);
    TimesTurned(q, r);
    TimesTurned(p, q.Times(r));
  }

  lemma TimesIsAssociative(p: Quat, q: Quat, r: Quat)
    ensures p.Times(q).Times(r) == p.Times(q.Times(r))
  {
    AssociativeReal(p, q, r);
    AssociativeAlongX(p, q, r);
    AssociativeAlongX(Turned(p), Turned(q), Turned(r));
    TurnedTwice(p, q, r);
    AssociativeAlongX(Turned(Turned(p)), Turned(Turned(q)), Turned(Turned(r)));
    TurnedTwice(Turned(p), Turned(q), Turned(r));
  }

  lemma ReversedSigns(a: real, b: real)
    ensures Product(-b, -a) == Product(a, b) && Product(b, -a) == -Product(a, b) == Product(-b, a)
    ensures Product(b, a) == Product(a, b)
  {
  }

  lemma InverseAlongX(p: Quat, q: Quat)
    ensures p.Times(q).Inverse().w == q.Inverse().Times(p.Inverse()).w
    ensures p.Times(q).Inverse().x == q.Inverse().Times(p.Inverse()).x
  {
    ReversedSigns(p.w, q.w);
    ReversedSigns(p.x, q.x);
    ReversedSigns(p.y, q.y);
    ReversedSigns(p.z, q.z);
    ReversedSigns(p.w, q.x);
    ReversedSigns(p.x, q.w);
    ReversedSigns(p.y, q.z);
    ReversedSigns(p.z, q.y);
  }

  lemma InverseOfProduct(p: Quat, q: Quat)
    ensures p.Times(q).Inverse() == q.Inverse().Times(p.Inverse())
  {
    InverseAlongX(p, q);
    InverseAlongX(Turned(p), Turned(q));
    TimesTurned(p, q);
    TimesTurned(q.Inverse(), p.Inverse());
    InverseAlongX(Turned(Turned(p)), Turned(Turned(q)));
    TimesTurned(Turned(p), Turned(q));
    TimesTurned(Turned(q.Inverse()), Turned(p.Inverse()));
  }

  lemma UnitInverse(p: Quat)
    requires p.Norm() == 1.0
    ensures p.Inverse().Times(p) == IDENTITY == p.Times(p.Inverse())
  {
    ReversedSigns(p.w, p.w);
    ReversedSigns(p.x, p.x);
    ReversedSigns(p.y, p.y);
    ReversedSigns(p.z, p.z);
    ReversedSigns(p.w, p.x);
    ReversedSigns(p.w, p.y);
    ReversedSigns(p.w, p.z);
    ReversedSigns(p.x, p.y);
    ReversedSigns(p.x, p.z);
    ReversedSigns(p.y, p.z);
  }

  /** The new rotations of the cameras, from the midpoint of the old ones and half the measured rotation. */
  function NewRotations(midpoint: Quat, half: Quat): (Quat, Quat) {
    (midpoint.Times(half.Inverse()), midpoint.Times(half))
  }

  /** From the left to the right camera it is the whole measured rotation, wherever the midpoint points. */
  lemma RelativeRotationIsMeasured(midpoint: Quat, half: Quat)
    requires midpoint.Norm() == 1.0
    ensures var (left, right) := NewRotations(midpoint, half);
            left.Inverse().Times(right) == half.Times(half)
  {
    var (left, right) := NewRotations(midpoint, half);
    InverseOfProduct(midpoint, half.Inverse());
    assert half.Inverse().Inverse() == half;
    TimesIsAssociative(half, midpoint.Inverse(), right);
    TimesIsAssociative(midpoint.Inverse(), midpoint, half);
    UnitInverse(midpoint);
    assert IDENTITY.Times(half) == half;
  }

  /** And half of it leads from either camera to the old midpoint. */
  lemma MidpointRotationIsKept(midpoint: Quat, half: Quat)
    requires half.Norm() == 1.0
    ensures var (left, right) := NewRotations(midpoint, half);
            left.Times(half) == midpoint == right.Times(half.Inverse())
  {
    TimesIsAssociative(midpoint, half.Inverse(), half);
    TimesIsAssociative(midpoint, half, half.Inverse());
    UnitInverse(half);
    assert midpoint.Times(IDENTITY) == midpoint;
  }
}
