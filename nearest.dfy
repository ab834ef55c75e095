/** What `nearestPointOnBounds` returns.

    It measures the distance from the point to each of the four lines the
    box's sides lie on, in the order left (min x), right (max x), top
    (max y), bottom (min y), and keeps the last line whose distance is no
    more than the best so far. The returned point takes that line's
    coordinate and copies the point's other coordinate unclamped. */
module Nearest {
  import opened Vectors
  import opened Bounds

  /** Distances from q to the four side lines, in visiting order. */
  function Distances(b: Aabb, q: Vec): (ds: seq<real>)
    ensures |ds| == 4
    ensures forall i :: 0 <= i < 4 ==> ds[i] >= 0.0
  {
    var lo, hi := Min(b), Max(b);
    [Abs(q.x - lo.x), Abs(hi.x - q.x), Abs(hi.y - q.y), Abs(lo.y - q.y)]
  }

  /** The projection of q onto each side line, in the same order. */
  function Candidates(b: Aabb, q: Vec): (cs: seq<Vec>)
    ensures |cs| == 4
    ensures cs[0].x == Min(b).x && cs[1].x == Max(b).x && cs[2].y == Max(b).y && cs[3].y == Min(b).y
    ensures cs[0].y == q.y && cs[1].y == q.y && cs[2].x == q.x && cs[3].x == q.x
  {
    var lo, hi := Min(b), Max(b);
    [Vec(lo.x, q.y), Vec(hi.x, q.y), Vec(q.x, hi.y), Vec(q.x, lo.y)]
  }

  /** Line k is chosen: no line is nearer, and every later line is strictly
      farther (a later line at the same distance would have replaced it). */
  ghost predicate IsChosenLine(b: Aabb, q: Vec, k: int) {
    var ds := Distances(b, q);
    0 <= k < 4 &&
    (forall j :: 0 <= j < 4 ==> ds[k] <= ds[j]) &&
    (forall j :: k < j < 4 ==> ds[k] < ds[j])
  }

  /** r is what nearestPointOnBounds returns for the resolved point q. */
  ghost predicate IsNearestChoice(b: Aabb, q: Vec, r: Vec) {
    exists k :: IsChosenLine(b, q, k) && r == Candidates(b, q)[k]
  }

  /** Some line is always chosen: the scan keeps the last minimum. */
  lemma ChosenLineExists(b: Aabb, q: Vec)
    ensures exists k :: IsChosenLine(b, q, k)
  {
    var ds := Distances(b, q);
    var k := 0;
    if ds[1] <= ds[k] { k := 1; }
    if ds[2] <= ds[k] { k := 2; }
    if ds[3] <= ds[k] { k := 3; }
    assert IsChosenLine(b, q, k);
  }

  /** At most one line is chosen. */
  lemma ChosenLineUnique(b: Aabb, q: Vec, k1: int, k2: int)
    requires IsChosenLine(b, q, k1) && IsChosenLine(b, q, k2)
    ensures k1 == k2
  {
    // Mentioning both distances gives the quantifiers of IsChosenLine the
    // Distances(b, q)[k] terms they need to fire.
    var d1, d2 := Distances(b, q)[k1], Distances(b, q)[k2];
  }

  /** The answer is determined by the box and the point. */
  lemma NearestChoiceUnique(b: Aabb, q: Vec, r1: Vec, r2: Vec)
    requires IsNearestChoice(b, q, r1) && IsNearestChoice(b, q, r2)
    ensures r1 == r2
  {
    var k1 :| IsChosenLine(b, q, k1) && r1 == Candidates(b, q)[k1];
    var k2 :| IsChosenLine(b, q, k2) && r2 == Candidates(b, q)[k2];
    ChosenLineUnique(b, q, k1, k2);
  }

  /** For a point inside the box (inclusively) the answer lies on the box's
      perimeter: contained inclusively, but not exclusively. */
  lemma NearestOfInsidePointIsOnPerimeter(b: Aabb, q: Vec, r: Vec)
    requires IsNearestChoice(b, q, r) && ContainsVec(b, q, false)
    ensures ContainsVec(b, r, false) && !ContainsVec(b, r, true)
  {
    var k :| IsChosenLine(b, q, k) && r == Candidates(b, q)[k];
    assert r.x == Min(b).x || r.x == Max(b).x || r.y == Max(b).y || r.y == Min(b).y;
  }

  /** For every point, inside the box or not, the answer's offset from q is
      the least of the four distances to the side lines. */
  lemma NearestOffsetIsLeastDistance(b: Aabb, q: Vec, r: Vec)
    requires IsNearestChoice(b, q, r)
    ensures forall j :: 0 <= j < 4 ==> Abs(r.x - q.x) + Abs(r.y - q.y) <= Distances(b, q)[j]
    ensures exists j :: 0 <= j < 4 && Abs(r.x - q.x) + Abs(r.y - q.y) == Distances(b, q)[j]
  {
    var k :| IsChosenLine(b, q, k) && r == Candidates(b, q)[k];
    assert Abs(r.x - q.x) + Abs(r.y - q.y) == Distances(b, q)[k];
  }

  /** For a point inside the box the answer is the perimeter point nearest
      to it: no point on the perimeter is closer (in the sum of the axis
      offsets). */
  lemma InsidePointAnswerIsNearestOnPerimeter(b: Aabb, q: Vec, r: Vec, s: Vec)
    requires ContainsVec(b, q, false) && IsNearestChoice(b, q, r)
    requires ContainsVec(b, s, false) && !ContainsVec(b, s, true)
    ensures Abs(r.x - q.x) + Abs(r.y - q.y) <= Abs(s.x - q.x) + Abs(s.y - q.y)
  {
    var k :| IsChosenLine(b, q, k) && r == Candidates(b, q)[k];
  }

  /** Outside the box the other coordinate is not clamped: for a point
      beyond the max corner that is nearer the top line than the right line,
      the answer keeps the point's x and so lies off the box. */
  lemma NearestOfOutsidePointLeavesBox(b: Aabb, q: Vec, r: Vec)
    requires b.extents.x > 0.0 && b.extents.y > 0.0
    requires q.x > Max(b).x && q.y > Max(b).y && q.y - Max(b).y <= q.x - Max(b).x
    requires IsNearestChoice(b, q, r)
    ensures r == Vec(q.x, Max(b).y)
    ensures !ContainsVec(b, r, false)
  {
    var ds := Distances(b, q);
    assert ds[2] <= ds[1] <= ds[0] && ds[2] < ds[3];
    assert IsChosenLine(b, q, 2);
    var k :| IsChosenLine(b, q, k) && r == Candidates(b, q)[k];
    ChosenLineUnique(b, q, k, 2);
  }
}
