/** What `support` returns: the box corner furthest in a direction.

    The corners are visited in the fixed order (+ex, +ey), (-ex, +ey),
    (-ex, -ey), (+ex, -ey); a corner replaces the best one so far only when
    its dot product with the direction is strictly greater, starting from 0.
    SupportOf is the documented behaviour (the earliest corner of largest
    dot product); SupportAsWrittenOf is what the loop returns when the best
    vertex is kept by reference to the one vertex object the loop mutates. */
module Corners {
  import opened Vectors
  import opened VectorLike
  import opened Bounds

  /** The i-th corner visited, relative to the center. */
  function Corner(e: Vec, i: nat): Vec
    requires i < 4
  {
    match i
    case 0 => Vec(e.x, e.y)
    case 1 => Vec(-e.x, e.y)
    case 2 => Vec(-e.x, -e.y)
    case 3 => Vec(e.x, -e.y)
  }

  /** How far the i-th corner reaches in direction d. */
  function Score(e: Vec, d: Vec, i: nat): real
    requires i < 4
  {
    Dot(Corner(e, i), d)
  }

  /** Corner k wins the scan: its score is positive, no corner scores more,
      and every earlier corner scores strictly less. */
  ghost predicate IsEarliestBest(e: Vec, d: Vec, k: nat) {
    k < 4 && Score(e, d, k) > 0.0 &&
    (forall j :: 0 <= j < 4 ==> Score(e, d, j) <= Score(e, d, k)) &&
    (forall j :: 0 <= j < k ==> Score(e, d, j) < Score(e, d, k))
  }

  /** None of the first n corners scores above 0. */
  ghost predicate NoPositiveCornerBefore(e: Vec, d: Vec, n: int) {
    forall j :: 0 <= j < n && j < 4 ==> Score(e, d, j) <= 0.0
  }

  /** No corner scores above 0: the scan never picks a vertex. */
  ghost predicate NoPositiveCorner(e: Vec, d: Vec) {
    NoPositiveCornerBefore(e, d, 4)
  }

  /** The winning corner in closed form: each sign follows the sign of its
      axis' term, ties going to the corner visited first. */
  function BestCorner(e: Vec, d: Vec): (k: nat)
    ensures k < 4
  {
    var a, c := e.x * d.x, e.y * d.y;
    if c >= 0.0 then (if a >= 0.0 then 0 else 1)
    else (if a <= 0.0 then 2 else 3)
  }

  /** Every corner scores 0 or less exactly when both axis terms vanish. */
  predicate Degenerate(e: Vec, d: Vec) {
    e.x * d.x == 0.0 && e.y * d.y == 0.0
  }

  /** support(direction), as documented. */
  function SupportOf(b: Aabb, direction: JsValue): (r: Result<Vec>)
    ensures r.Err? <==> !direction.Vector? || IsZero(direction.v) ||
                        (!IsZero(b.extents) && Degenerate(b.extents, direction.v))
    ensures r.Err? ==> (r.error == RangeError <==> direction.Vector? && IsZero(direction.v))
  {
    if !direction.Vector? then Err(TypeError)
    else if IsZero(direction.v) then Err(RangeError)
    else if IsZero(b.extents) then Ok(b.center)
    else if Degenerate(b.extents, direction.v) then Err(TypeError)  // no vertex was picked
    else Ok(Add(Corner(b.extents, BestCorner(b.extents, direction.v)), b.center))
  }

  /** support(direction), as the loop with a shared vertex object computes it:
      the same errors, but any picked vertex ends as the last corner. */
  function SupportAsWrittenOf(b: Aabb, direction: JsValue): (r: Result<Vec>)
    ensures r.Err? <==> SupportOf(b, direction).Err?
  {
    if !direction.Vector? then Err(TypeError)
    else if IsZero(direction.v) then Err(RangeError)
    else if IsZero(b.extents) then Ok(b.center)
    else if Degenerate(b.extents, direction.v) then Err(TypeError)
    else Ok(Add(Corner(b.extents, 3), b.center))
  }

  /** The two axis terms behind every score. */
  lemma ScoresByTerms(e: Vec, d: Vec)
    ensures Score(e, d, 0) == e.x * d.x + e.y * d.y
    ensures Score(e, d, 1) == -(e.x * d.x) + e.y * d.y
    ensures Score(e, d, 2) == -(e.x * d.x) - e.y * d.y
    ensures Score(e, d, 3) == e.x * d.x - e.y * d.y
  {
  }

  /** The closed form picks the corner the scan picks. */
  lemma BestCornerIsEarliestBest(e: Vec, d: Vec)
    requires !Degenerate(e, d)
    ensures IsEarliestBest(e, d, BestCorner(e, d))
  {
    ScoresByTerms(e, d);
  }

  /** At most one corner wins the scan. */
  lemma EarliestBestUnique(e: Vec, d: Vec, k1: nat, k2: nat)
    requires IsEarliestBest(e, d, k1) && IsEarliestBest(e, d, k2)
    ensures k1 == k2
  {
  }

  /** No corner scores above 0 exactly in the degenerate case. */
  lemma NoPositiveCornerIffDegenerate(e: Vec, d: Vec)
    ensures NoPositiveCorner(e, d) <==> Degenerate(e, d)
  {
    ScoresByTerms(e, d);
    if !Degenerate(e, d) {
      BestCornerIsEarliestBest(e, d);
    }
  }

  /** What support promises: for a non-zero direction and non-zero extents
      it returns the center plus the earliest corner of largest dot product,
      or fails when no corner's dot product is positive. */
  lemma SupportIsEarliestMaximum(b: Aabb, d: Vec)
    requires !IsZero(d) && !IsZero(b.extents)
    ensures SupportOf(b, Vector(d)).Ok? <==> !NoPositiveCorner(b.extents, d)
    ensures SupportOf(b, Vector(d)).Ok? ==>
              exists k :: IsEarliestBest(b.extents, d, k) &&
                          SupportOf(b, Vector(d)).value == Add(Corner(b.extents, k), b.center)
  {
    NoPositiveCornerIffDegenerate(b.extents, d);
    if !Degenerate(b.extents, d) {
      BestCornerIsEarliestBest(b.extents, d);
    }
  }

  /** A zero-extent box answers its center for every non-zero direction. */
  lemma SupportOfPointIsCenter(b: Aabb, d: Vec)
    requires IsZero(b.extents) && !IsZero(d)
    ensures SupportOf(b, Vector(d)) == Ok(b.center)
  {
  }

  /** For a box with positive extents and a direction off both axes, the
      corner is the one whose signs are the direction's signs. */
  lemma SupportFollowsSigns(b: Aabb, d: Vec)
    requires b.extents.x > 0.0 && b.extents.y > 0.0
    requires d.x != 0.0 && d.y != 0.0
    ensures SupportOf(b, Vector(d)) ==
              Ok(Add(Vec(if d.x > 0.0 then b.extents.x else -b.extents.x,
                         if d.y > 0.0 then b.extents.y else -b.extents.y), b.center))
  {
    var e := b.extents;
    if d.x > 0.0 { assert e.x * d.x > 0.0; } else { assert e.x * d.x < 0.0; }
    if d.y > 0.0 { assert e.y * d.y > 0.0; } else { assert e.y * d.y < 0.0; }
  }

  /** Failing with a non-zero extent: the direction runs along the axis
      whose extent is zero, so no corner scores above 0. */
  lemma SupportFailsAcrossFlatAxis(c: Vec, ey: real, dx: real)
    requires ey != 0.0 && dx != 0.0
    ensures NoPositiveCorner(Vec(0.0, ey), Vec(dx, 0.0))
    ensures SupportOf(Aabb(c, Vec(0.0, ey)), Vector(Vec(dx, 0.0))) == Err(TypeError)
  {
  }

  /** The shared vertex gives the documented answer only when that answer
      is the last corner visited. */
  lemma AsWrittenAgreesOnlyAtLastCorner(b: Aabb, d: Vec)
    requires !IsZero(d) && !IsZero(b.extents) && !Degenerate(b.extents, d)
    ensures SupportAsWrittenOf(b, Vector(d)) == SupportOf(b, Vector(d)) <==>
              Corner(b.extents, BestCorner(b.extents, d)) == Corner(b.extents, 3)
  {
  }

  /** The box centered at the origin with extents (2, 3), as in the
      repository's tests, and direction (1, 1): the documented answer is
      (2, 3), the shared vertex gives (2, -3). */
  lemma AsWrittenCounterexample()
    ensures SupportOf(Aabb(Origin, Vec(2.0, 3.0)), Vector(Vec(1.0, 1.0))) == Ok(Vec(2.0, 3.0))
    ensures SupportAsWrittenOf(Aabb(Origin, Vec(2.0, 3.0)), Vector(Vec(1.0, 1.0))) == Ok(Vec(2.0, -3.0))
  {
  }
}
