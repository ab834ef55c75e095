/** The AABBDD object itself: a box whose center and extents the mutators
    change in place, and the operations that work step by step over those
    two fields. Everything that only reads the box is a function of its
    value, Value(), in module Bounds. */
module Aabbdd {
  import opened Vectors
  import opened VectorLike
  import opened Bounds
  import Corners
  import Nearest

  /** A Vector2D object whose components are updated in place, as the
      vertex that support's loop keeps flipping. */
  class VertexObject {
    var x: real
    var y: real

    constructor (v: Vec)
      ensures x == v.x && y == v.y
    {
      x := v.x;
      y := v.y;
    }
  }

  class Box {
    var center: Vec
    var extents: Vec

    /** The box's current value. */
    function Value(): Aabb
      reads this
    {
      Aabb(center, extents)
    }

    /** new AABBDD({center, extents}) from two vectors. */
    constructor (center: Vec, extents: Vec)
      ensures Value() == Aabb(center, extents)
    {
      this.center := center;
      this.extents := extents;
    }

    /** new AABBDD(other): a fresh box with copies of other's vectors. */
    constructor Copy(other: Box)
      ensures Value() == other.Value()
    {
      center := other.center;
      extents := other.extents;
    }

    /** translate(x = 0, y = 0): adds the vector to the center. The arguments
        are checked before anything is written, so a rejected call leaves
        the box as it was. */
    method Translate(x: JsValue, y: JsValue) returns (r: Result<Box>)
      modifies this
      ensures match AssertVectorLike(OrDefault(x, 0.0), OrDefault(y, 0.0))
              case Ok(v) => r == Ok(this) && Value() == Translated(old(Value()), v)
              case Err(e) => r == Err(e) && Value() == old(Value())
      ensures x.Undefined? && y.Undefined? ==> r == Ok(this) && Value() == old(Value())
    {
      var v := AssertVectorLike(OrDefault(x, 0.0), OrDefault(y, 0.0));
      if v.Err? {
        return Err(v.error);
      }
      center := center.(x := center.x + v.value.x);
      center := center.(y := center.y + v.value.y);
      r := Ok(this);
    }

    /** scale(x = 1, y = 1): multiplies the extents componentwise. An object
        argument lacking a key scales that axis by 0, not by 1: the key
        default is the normaliser's, not scale's. */
    method Scale(x: JsValue, y: JsValue) returns (r: Result<Box>)
      modifies this
      ensures match AssertVectorLike(OrDefault(x, 1.0), OrDefault(y, 1.0))
              case Ok(v) => r == Ok(this) && Value() == Scaled(old(Value()), v)
              case Err(e) => r == Err(e) && Value() == old(Value())
      ensures x.Undefined? && y.Undefined? ==> r == Ok(this) && Value() == old(Value())
      ensures x == Object(Number(2.0), Undefined) ==> extents == Vec(old(extents.x) * 2.0, 0.0)
    {
      var v := AssertVectorLike(OrDefault(x, 1.0), OrDefault(y, 1.0));
      if v.Err? {
        return Err(v.error);
      }
      extents := extents.(x := extents.x * v.value.x);
      extents := extents.(y := extents.y * v.value.y);
      r := Ok(this);
    }

    /** expand(x = 0, y = 0): adds the vector to the extents. */
    method Expand(x: JsValue, y: JsValue) returns (r: Result<Box>)
      modifies this
      ensures match AssertVectorLike(OrDefault(x, 0.0), OrDefault(y, 0.0))
              case Ok(v) => r == Ok(this) && Value() == Expanded(old(Value()), v)
              case Err(e) => r == Err(e) && Value() == old(Value())
      ensures x.Undefined? && y.Undefined? ==> r == Ok(this) && Value() == old(Value())
    {
      var v := AssertVectorLike(OrDefault(x, 0.0), OrDefault(y, 0.0));
      if v.Err? {
        return Err(v.error);
      }
      extents := extents.(x := extents.x + v.value.x);
      extents := extents.(y := extents.y + v.value.y);
      r := Ok(this);
    }

    /** support(direction): visits the four corners in order and keeps a
        copy of the best one, so the answer is the earliest corner of
        largest dot product (Corners.SupportOf). */
    method Support(direction: JsValue) returns (r: Result<Vec>)
      ensures r == Corners.SupportOf(Value(), direction)
    {
      if !direction.Vector? {
        return Err(TypeError);
      }
      var d := direction.v;
      if IsZero(d) {
        return Err(RangeError);
      }
      if IsZero(extents) {
        return Ok(center);
      }
      var i := 0;
      var vertex := Origin;
      var picked := false;  // furthestVertex is still undefined
      var furthestVertex := Origin;
      var furthestDistance := 0.0;
      ghost var best := 0;
      while i < 4
        invariant 0 <= i <= 4
        invariant 0 < i ==> vertex == Corners.Corner(extents, i - 1)
        invariant !picked ==> furthestDistance == 0.0 && Corners.NoPositiveCornerBefore(extents, d, i)
        invariant picked ==> best < i && furthestVertex == Corners.Corner(extents, best) &&
                             furthestDistance == Corners.Score(extents, d, best) > 0.0
        invariant picked ==> forall j :: 0 <= j < i ==> Corners.Score(extents, d, j) <= furthestDistance
        invariant picked ==> forall j :: 0 <= j < best ==> Corners.Score(extents, d, j) < furthestDistance
      {
        if i == 0 {
          vertex := extents;
        } else if i == 1 {
          vertex := vertex.(x := vertex.x * -1.0);
        } else if i == 2 {
          vertex := vertex.(y := vertex.y * -1.0);
        } else {
          vertex := vertex.(x := vertex.x * -1.0);
        }
        var distance := Dot(vertex, d);
        if distance > furthestDistance {
          furthestDistance := distance;
          furthestVertex := vertex;
          picked := true;
          best := i;
        }
        i := i + 1;
      }
      Corners.NoPositiveCornerIffDegenerate(extents, d);
      if !picked {
        return Err(TypeError);  // adding an undefined vertex to the center throws
      }
      Corners.BestCornerIsEarliestBest(extents, d);
      Corners.EarliestBestUnique(extents, d, best, Corners.BestCorner(extents, d));
      r := Ok(Add(furthestVertex, center));
    }

    /** support(direction) as the source's loop runs it: one vertex object is
        flipped in place and the best vertex is kept by reference to it, so
        whatever corner scored best, the answer is the last corner visited
        (Corners.SupportAsWrittenOf). */
    method SupportAsWritten(direction: JsValue) returns (r: Result<Vec>)
      ensures r == Corners.SupportAsWrittenOf(Value(), direction)
    {
      if !direction.Vector? {
        return Err(TypeError);
      }
      var d := direction.v;
      if IsZero(d) {
        return Err(RangeError);
      }
      if IsZero(extents) {
        return Ok(center);
      }
      var i := 0;
      var vertex: VertexObject? := null;
      var furthestVertex: VertexObject? := null;
      var furthestDistance := 0.0;
      while i < 4
        invariant 0 <= i <= 4
        invariant 0 < i ==> vertex != null && fresh(vertex) &&
                            Vec(vertex.x, vertex.y) == Corners.Corner(extents, i - 1)
        invariant furthestVertex != null ==> furthestVertex == vertex && furthestDistance > 0.0
        invariant furthestVertex == null ==> furthestDistance == 0.0
        invariant furthestVertex == null <==> Corners.NoPositiveCornerBefore(extents, d, i)
      {
        if i == 0 {
          vertex := new VertexObject(extents);
        } else if i == 1 {
          vertex.x := vertex.x * -1.0;
        } else if i == 2 {
          vertex.y := vertex.y * -1.0;
        } else {
          vertex.x := vertex.x * -1.0;
        }
        var distance := Dot(Vec(vertex.x, vertex.y), d);
        assert distance == Corners.Score(extents, d, i);
        if distance > furthestDistance {
          furthestDistance := distance;
          furthestVertex := vertex;
        }
        i := i + 1;
      }
      Corners.NoPositiveCornerIffDegenerate(extents, d);
      if furthestVertex == null {
        return Err(TypeError);
      }
      r := Ok(Add(Vec(furthestVertex.x, furthestVertex.y), center));
    }

    /** nearestPointOnBounds(p): the four side lines are tried in order,
        each replacing the current answer when it is no farther. */
    method NearestPointOnBounds(p: JsValue) returns (r: Result<Vec>)
      ensures AssertVectorLike(p, Undefined).Err? ==> r == Err(TypeError)
      ensures AssertVectorLike(p, Undefined).Ok? ==>
                r.Ok? && Nearest.IsNearestChoice(Value(), AssertVectorLike(p, Undefined).value, r.value)
    {
      var pv := AssertVectorLike(p, Undefined);
      if pv.Err? {
        return Err(pv.error);
      }
      var q := pv.value;
      var min, max := Min(Value()), Max(Value());
      ghost var ds := Nearest.Distances(Value(), q);
      var minDist := Abs(q.x - min.x);
      var pointX, pointY := min.x, q.y;
      ghost var k := 0;
      if Abs(max.x - q.x) <= minDist {
        minDist := Abs(max.x - q.x);
        pointX, pointY := max.x, q.y;
        k := 1;
      }
      assert minDist == ds[k] && forall j :: 0 <= j < 2 ==> ds[k] <= ds[j];
      if Abs(max.y - q.y) <= minDist {
        minDist := Abs(max.y - q.y);
        pointX, pointY := q.x, max.y;
        k := 2;
      }
      assert minDist == ds[k] && forall j :: 0 <= j < 3 ==> ds[k] <= ds[j];
      if Abs(min.y - q.y) <= minDist {
        minDist := Abs(min.y - q.y);
        pointX, pointY := q.x, min.y;
        k := 3;
      }
      assert Nearest.IsChosenLine(Value(), q, k);
      r := Ok(Vec(pointX, pointY));
    }

    /** combine(a, b): a new box enclosing both; a and b are not changed. */
    static method Combine(a: Box, b: Box) returns (r: Box)
      ensures fresh(r) && r.Value() == Bounds.Combine(a.Value(), b.Value())
    {
      var c := Bounds.Combine(a.Value(), b.Value());
      r := new Box(c.center, c.extents);
    }

    /** minkowskiDifference(a, b): a new box; a and b are not changed. */
    static method MinkowskiDifference(a: Box, b: Box) returns (r: Box)
      ensures fresh(r) && r.Value() == Bounds.MinkowskiDifference(a.Value(), b.Value())
    {
      var m := Bounds.MinkowskiDifference(a.Value(), b.Value());
      r := new Box(m.center, m.extents);
    }
  }

  /** Translating by a vector and then by its opposite gives the box back,
      and each call hands back the box itself for chaining. */
  method TranslateThereAndBack(box: Box, a: real, c: real)
    modifies box
    ensures box.Value() == old(box.Value())
  {
    var r1 := box.Translate(Number(a), Number(c));
    assert r1 == Ok(box);
    var r2 := box.Translate(Number(-a), Number(-c));
    assert r2 == Ok(box);
    TranslateRoundTrip(old(box.Value()), Vec(a, c));
  }
}
