/** The value of an axis-aligned box and everything that is computed from it
    without changing it: bounds, size, area, point containment, the relations
    between two boxes, and the two static builders. */
module Bounds {
  import opened Vectors
  import opened VectorLike

  /** A box spanning center - extents .. center + extents on each axis.
      Nothing forces the extents to be non-negative; a negative extent gives
      an inverted box. */
  datatype Aabb = Aabb(center: Vec, extents: Vec)

  /** Extents of at least zero on both axes: a box that is not inverted. */
  predicate Proper(b: Aabb) {
    b.extents.x >= 0.0 && b.extents.y >= 0.0
  }

  // ---------------------------------------------------------------- queries

  /** getMin: the corner the extents are subtracted from the center to reach. */
  function Min(b: Aabb): (r: Vec)
    ensures Add(r, b.extents) == b.center
  {
    Sub(b.center, b.extents)
  }

  /** getMax: the corner the extents are added to the center to reach. */
  function Max(b: Aabb): (r: Vec)
    ensures Sub(r, b.extents) == b.center
  {
    Add(b.center, b.extents)
  }

  /** getSize: the vector from the min corner to the max corner. */
  function Size(b: Aabb): (r: Vec)
    ensures r == Sub(Max(b), Min(b))
  {
    Vec(b.extents.x * 2.0, b.extents.y * 2.0)
  }

  /** getArea: width times height (negative for a box inverted on one axis). */
  function Area(b: Aabb): (r: real)
    ensures r == Size(b).x * Size(b).y
  {
    b.extents.x * b.extents.y * 4.0
  }

  /** The box whose bounds are lo and hi, rebuilt the way combine does it:
      half the span as extents, lo plus that as center. */
  function FromBounds(lo: Vec, hi: Vec): (r: Aabb)
    ensures Min(r) == lo && Max(r) == hi
  {
    var half := Vec((hi.x - lo.x) / 2.0, (hi.y - lo.y) / 2.0);
    Aabb(Vec(lo.x + half.x, lo.y + half.y), half)
  }

  /** Two boxes with the same bounds are the same box. */
  lemma BoundsDetermineBox(a: Aabb, b: Aabb)
    requires Min(a) == Min(b) && Max(a) == Max(b)
    ensures a == b
  {
    assert a.center.x == (Min(a).x + Max(a).x) / 2.0;
    assert b.center.x == (Min(b).x + Max(b).x) / 2.0;
    assert a.center.y == (Min(a).y + Max(a).y) / 2.0;
    assert b.center.y == (Min(b).y + Max(b).y) / 2.0;
  }

  /** Every box is rebuilt exactly from its own bounds. */
  lemma FromBoundsOfBounds(b: Aabb)
    ensures FromBounds(Min(b), Max(b)) == b
  {
    BoundsDetermineBox(FromBounds(Min(b), Max(b)), b);
  }

  // ------------------------------------------------------ point containment

  /** The containment test on a resolved point: on both axes between the
      bounds, inclusive (<=, >=) or exclusive (<, >). */
  predicate ContainsVec(b: Aabb, q: Vec, exclusive: bool) {
    var lo, hi := Min(b), Max(b);
    if exclusive then lo.x < q.x && hi.x > q.x && lo.y < q.y && hi.y > q.y
    else lo.x <= q.x && hi.x >= q.x && lo.y <= q.y && hi.y >= q.y
  }

  /** containsPoint(p, exclusive): p goes through the normaliser alone, so a
      bare number (its y is undefined) or an unusable value is a TypeError. */
  function ContainsPoint(b: Aabb, p: JsValue, exclusive: bool): (r: Result<bool>)
    ensures r.Err? <==> AssertVectorLike(p, Undefined).Err?
    ensures r.Err? ==> r.error == TypeError
    ensures r.Ok? ==> r.value == ContainsVec(b, AssertVectorLike(p, Undefined).value, exclusive)
  {
    match AssertVectorLike(p, Undefined)
    case Ok(q) => Ok(ContainsVec(b, q, exclusive))
    case Err(e) => Err(e)
  }

  /** An exclusive hit is an inclusive hit. */
  lemma ExclusiveImpliesInclusive(b: Aabb, p: JsValue)
    requires ContainsPoint(b, p, true) == Ok(true)
    ensures ContainsPoint(b, p, false) == Ok(true)
  {
  }

  /** A point on a side of the box is contained inclusively (when it is
      between the other two bounds) but never exclusively. */
  lemma PerimeterOnlyInclusive(b: Aabb, q: Vec)
    requires q.x == Max(b).x || q.x == Min(b).x || q.y == Max(b).y || q.y == Min(b).y
    ensures !ContainsVec(b, q, true)
    ensures q.x == Max(b).x && Proper(b) ==> (ContainsVec(b, q, false) <==> Min(b).y <= q.y <= Max(b).y)
  {
  }

  /** A proper box contains its center; the center is strictly inside when
      both extents are positive. */
  lemma ContainsCenter(b: Aabb)
    requires Proper(b)
    ensures ContainsVec(b, b.center, false)
    ensures b.extents.x > 0.0 && b.extents.y > 0.0 ==> ContainsVec(b, b.center, true)
  {
  }

  /** The test is not a bare number test: containsPoint(1, ...) is rejected,
      containsPoint([1, 0]) is answered. */
  lemma PointArgumentShapes(b: Aabb, a: real, c: real, exclusive: bool)
    ensures ContainsPoint(b, Number(a), exclusive) == Err(TypeError)
    ensures ContainsPoint(b, Array([Number(a), Number(c)]), exclusive) == Ok(ContainsVec(b, Vec(a, c), exclusive))
  {
  }

  // ------------------------------------------------------------- relations

  /** equals: componentwise equality of center and of extents, which is the
      equality of the two box values. */
  function Equals(a: Aabb, b: Aabb): (r: bool)
    ensures r <==> a == b
  {
    a.center.x == b.center.x && a.center.y == b.center.y &&
    a.extents.x == b.extents.x && a.extents.y == b.extents.y
  }

  /** containsAABB: the other box's bounds lie within this box's bounds on
      both axes. */
  function ContainsAabb(a: Aabb, b: Aabb): (r: bool)
    ensures r ==> forall q :: ContainsVec(b, q, false) ==> ContainsVec(a, q, false)
    ensures Proper(b) && (forall q :: ContainsVec(b, q, false) ==> ContainsVec(a, q, false)) ==> r
  {
    var aMin, aMax, bMin, bMax := Min(a), Max(a), Min(b), Max(b);
    var r := aMin.x <= bMin.x && aMax.x >= bMax.x && aMin.y <= bMin.y && aMax.y >= bMax.y;
    assert Proper(b) && !r ==>
      (ContainsVec(b, bMin, false) && !ContainsVec(a, bMin, false)) ||
      (ContainsVec(b, bMax, false) && !ContainsVec(a, bMax, false));
    r
  }

  /** intersects: the bound intervals overlap on both axes; touching counts.
      Any common point makes it hold, and for proper boxes that hold it the
      corner at the componentwise max of the two mins is a common point. */
  function Intersects(a: Aabb, b: Aabb): (r: bool)
    ensures (exists q :: ContainsVec(a, q, false) && ContainsVec(b, q, false)) ==> r
    ensures r && Proper(a) && Proper(b) ==>
              ContainsVec(a, ComponentMax(Min(a), Min(b)), false) &&
              ContainsVec(b, ComponentMax(Min(a), Min(b)), false)
  {
    var aMin, aMax, bMin, bMax := Min(a), Max(a), Min(b), Max(b);
    aMin.x <= bMax.x && aMax.x >= bMin.x && aMin.y <= bMax.y && aMax.y >= bMin.y
  }

  lemma EqualsReflexive(a: Aabb)
    ensures Equals(a, a)
  {
  }

  lemma EqualsSymmetric(a: Aabb, b: Aabb)
    ensures Equals(a, b) == Equals(b, a)
  {
  }

  lemma ContainsAabbReflexive(a: Aabb)
    ensures ContainsAabb(a, a)
  {
  }

  lemma ContainsAabbTransitive(a: Aabb, b: Aabb, c: Aabb)
    requires ContainsAabb(a, b) && ContainsAabb(b, c)
    ensures ContainsAabb(a, c)
  {
  }

  /** Mutual containment is equality. */
  lemma ContainsAabbAntisymmetric(a: Aabb, b: Aabb)
    requires ContainsAabb(a, b) && ContainsAabb(b, a)
    ensures Equals(a, b)
  {
    BoundsDetermineBox(a, b);
  }

  lemma IntersectsSymmetric(a: Aabb, b: Aabb)
    ensures Intersects(a, b) == Intersects(b, a)
  {
  }

  /** Boxes that share only part of an edge still intersect. */
  lemma TouchingBoxesIntersect(a: Aabb, b: Aabb)
    requires Max(a).x == Min(b).x
    requires Min(a).y <= Max(b).y && Max(a).y >= Min(b).y
    requires Proper(a) && Proper(b)
    ensures Intersects(a, b)
  {
  }

  /** For proper boxes, intersecting means having a point in common. */
  lemma IntersectsIffCommonPoint(a: Aabb, b: Aabb)
    requires Proper(a) && Proper(b)
    ensures Intersects(a, b) <==> exists q :: ContainsVec(a, q, false) && ContainsVec(b, q, false)
  {
    if Intersects(a, b) {
      var q := ComponentMax(Min(a), Min(b));
      assert ContainsVec(a, q, false) && ContainsVec(b, q, false);
    }
  }

  /** A proper box inside another intersects it. */
  lemma ContainedIntersects(a: Aabb, b: Aabb)
    requires Proper(b) && ContainsAabb(a, b)
    ensures Intersects(a, b)
  {
  }

  // ------------------------------------------------------------- builders

  /** combine(a, b): the box spanning the componentwise min of the mins and
      the componentwise max of the maxes. */
  function Combine(a: Aabb, b: Aabb): (r: Aabb)
    ensures Min(r) == ComponentMin(Min(a), Min(b)) && Max(r) == ComponentMax(Max(a), Max(b))
    ensures ContainsAabb(r, a) && ContainsAabb(r, b)
  {
    FromBounds(ComponentMin(Min(a), Min(b)), ComponentMax(Max(a), Max(b)))
  }

  lemma CombineCommutative(a: Aabb, b: Aabb)
    ensures Combine(a, b) == Combine(b, a)
  {
    BoundsDetermineBox(Combine(a, b), Combine(b, a));
  }

  lemma CombineIdempotent(a: Aabb)
    ensures Combine(a, a) == a
  {
    BoundsDetermineBox(Combine(a, a), a);
  }

  lemma CombineAssociative(a: Aabb, b: Aabb, c: Aabb)
    ensures Combine(Combine(a, b), c) == Combine(a, Combine(b, c))
  {
    BoundsDetermineBox(Combine(Combine(a, b), c), Combine(a, Combine(b, c)));
  }

  /** The combined box is the least box containing both. */
  lemma CombineIsLeast(a: Aabb, b: Aabb, c: Aabb)
    requires ContainsAabb(c, a) && ContainsAabb(c, b)
    ensures ContainsAabb(c, Combine(a, b))
  {
  }

  /** minkowskiDifference(a, b): extents a.extents + b.extents, centered so
      that it spans aMin - bMax .. aMax - bMin. */
  function MinkowskiDifference(a: Aabb, b: Aabb): (r: Aabb)
    ensures r.extents == Add(a.extents, b.extents)
    ensures Min(r) == Sub(Min(a), Max(b)) && Max(r) == Sub(Max(a), Min(b))
    ensures ContainsVec(r, Origin, false) <==> Intersects(a, b)
  {
    var e := Add(a.extents, b.extents);
    var aMin, bMax := Min(a), Max(b);
    Aabb(Vec(aMin.x - bMax.x + e.x, aMin.y - bMax.y + e.y), e)
  }

  /** The general form: the difference contains q exactly when b moved by q
      meets a. */
  lemma MinkowskiContainsIffShiftedIntersects(a: Aabb, b: Aabb, q: Vec)
    ensures ContainsVec(MinkowskiDifference(a, b), q, false) <==> Intersects(a, Translated(b, q))
  {
  }

  /** The test the difference exists for, through containsPoint itself. */
  lemma MinkowskiOriginTest(a: Aabb, b: Aabb)
    ensures ContainsPoint(MinkowskiDifference(a, b), Vector(Origin), false) == Ok(Intersects(a, b))
  {
  }

  // ----------------------------------------------- what the mutators compute

  /** translate: the center moves by v, the extents stay. */
  function Translated(b: Aabb, v: Vec): (r: Aabb)
    ensures Min(r) == Add(Min(b), v) && Max(r) == Add(Max(b), v)
    ensures r.extents == b.extents
  {
    Aabb(Add(b.center, v), b.extents)
  }

  /** scale: the extents are multiplied componentwise, the center stays. */
  function Scaled(b: Aabb, v: Vec): (r: Aabb)
    ensures r.center == b.center
    ensures Size(r) == Mul(Size(b), v)
    ensures Area(r) == Area(b) * v.x * v.y
  {
    Aabb(b.center, Mul(b.extents, v))
  }

  /** expand: v is added to the extents, the center stays. */
  function Expanded(b: Aabb, v: Vec): (r: Aabb)
    ensures r.center == b.center
    ensures Min(r) == Sub(Min(b), v) && Max(r) == Add(Max(b), v)
    ensures v.x >= 0.0 && v.y >= 0.0 ==> ContainsAabb(r, b)
  {
    Aabb(b.center, Add(b.extents, v))
  }

  /** Translating back by the opposite vector restores the box. */
  lemma TranslateRoundTrip(b: Aabb, v: Vec)
    ensures Translated(Translated(b, v), Neg(v)) == b
  {
  }

  /** Translation moves containment along with the box. */
  lemma TranslatePreservesContainment(b: Aabb, v: Vec, q: Vec, exclusive: bool)
    ensures ContainsVec(Translated(b, v), Add(q, v), exclusive) == ContainsVec(b, q, exclusive)
  {
  }

  /** The default arguments (0, 0), (1, 1) and (0, 0) change nothing. */
  lemma DefaultsAreNoOps(b: Aabb)
    ensures Translated(b, Origin) == b
    ensures Scaled(b, Vec(1.0, 1.0)) == b
    ensures Expanded(b, Origin) == b
  {
  }
}
