/** The box's argument normaliser: every mutator and point query turns its
    flexible "vector-like" arguments into an (x, y) pair through it. */
module VectorLike {
  import opened Vectors

  /** The two exceptions the box raises. */
  datatype Error = TypeError | RangeError

  datatype Result<+T> = Ok(value: T) | Err(error: Error)

  /** A JavaScript argument, as finely as the normaliser tells values apart. */
  datatype JsValue =
    | Undefined                              // also an omitted argument or an absent key
    | Null
    | Number(n: real)
    | Other                                  // a string, boolean, symbol, bigint or function
    | Array(elements: seq<JsValue>)
    | Object(fieldX: JsValue, fieldY: JsValue) // any other object; Undefined for a key it lacks
    | Vector(v: Vec)                         // a Vector2D instance

  /** A default parameter value (`x = 0`): it replaces only `undefined`. */
  function OrDefault(v: JsValue, d: real): (r: JsValue)
    ensures !r.Undefined?
    ensures !v.Undefined? ==> r == v
  {
    if v.Undefined? then Number(d) else v
  }

  /** Array destructuring reads a missing element as `undefined`. */
  function Element(es: seq<JsValue>, i: nat): JsValue {
    if i < |es| then es[i] else Undefined
  }

  /** The final check: both resolved components must be numbers. */
  function Numbers(x: JsValue, y: JsValue): (r: Result<Vec>)
    ensures r.Ok? <==> x.Number? && y.Number?
    ensures r.Ok? ==> r.value == Vec(x.n, y.n)
    ensures r.Err? ==> r.error == TypeError
  {
    if x.Number? && y.Number? then Ok(Vec(x.n, y.n)) else Err(TypeError)
  }

  /** assertVectorLike(x, y): an object gives its own x and y (absent keys
      read as 0) and the second argument is ignored; an array gives its
      first two elements; anything else is taken as the two components. */
  function AssertVectorLike(x: JsValue, y: JsValue): (r: Result<Vec>)
    ensures r.Err? ==> r.error == TypeError
    ensures r.Ok? ==> x.Number? || x.Array? || x.Object? || x.Vector?
    ensures x.Number? ==> r == Numbers(x, y)
    ensures x.Array? ==> r == Numbers(Element(x.elements, 0), Element(x.elements, 1))
    ensures x.Object? && r.Ok? ==>
              r.value == Vec(if x.fieldX.Number? then x.fieldX.n else 0.0,
                             if x.fieldY.Number? then x.fieldY.n else 0.0)
    ensures x.Vector? ==> r == Ok(x.v)
  {
    match x
    case Null => Err(TypeError)  // destructuring null throws
    case Array(es) => Numbers(Element(es, 0), Element(es, 1))
    case Object(fx, fy) => Numbers(OrDefault(fx, 0.0), OrDefault(fy, 0.0))
    case Vector(v) => Ok(v)
    case _ => Numbers(x, y)
  }

  /** For an object, an array, a vector or null the second argument plays no part. */
  lemma SecondArgumentIgnored(x: JsValue, y1: JsValue, y2: JsValue)
    requires x.Null? || x.Array? || x.Object? || x.Vector?
    ensures AssertVectorLike(x, y1) == AssertVectorLike(x, y2)
  {
  }

  /** Keys an object lacks read as 0; keys it holds must be numbers. */
  lemma ObjectKeysDefaultToZero(fx: JsValue, fy: JsValue, y: JsValue)
    ensures AssertVectorLike(Object(Undefined, Undefined), y) == Ok(Origin)
    ensures AssertVectorLike(Object(fx, fy), y).Ok? <==>
              (fx.Undefined? || fx.Number?) && (fy.Undefined? || fy.Number?)
    ensures fx.Number? && fy.Undefined? ==> AssertVectorLike(Object(fx, fy), y) == Ok(Vec(fx.n, 0.0))
    ensures fx.Undefined? && fy.Number? ==> AssertVectorLike(Object(fx, fy), y) == Ok(Vec(0.0, fy.n))
    ensures fx.Number? && fy.Number? ==> AssertVectorLike(Object(fx, fy), y) == Ok(Vec(fx.n, fy.n))
    ensures AssertVectorLike(Object(fx, fy), y).Ok? ==>
              AssertVectorLike(Object(fx, fy), y).value ==
                Vec(if fx.Number? then fx.n else 0.0, if fy.Number? then fy.n else 0.0)
  {
  }

  /** A Vector2D instance passes through unchanged. */
  lemma VectorPassesThrough(v: Vec, y: JsValue)
    ensures AssertVectorLike(Vector(v), y) == Ok(v)
  {
  }

  /** Two numbers are accepted as they are; a single number is not enough. */
  lemma NumbersAccepted(a: real, b: real)
    ensures AssertVectorLike(Number(a), Number(b)) == Ok(Vec(a, b))
    ensures AssertVectorLike(Number(a), Undefined) == Err(TypeError)
    ensures AssertVectorLike(Array([Number(a), Number(b)]), Undefined) == Ok(Vec(a, b))
  {
  }

  /** Arrays give only their first two elements, and need both. */
  lemma ArrayNeedsTwoNumbers(es: seq<JsValue>, y: JsValue)
    ensures AssertVectorLike(Array(es), y).Ok? <==> |es| >= 2 && es[0].Number? && es[1].Number?
    ensures AssertVectorLike(Array([]), y) == Err(TypeError)
  {
  }

  /** The rejected inputs of the repository's tests: {x: 'a'}, ['a', {}],
      [0, []], ('a', 5) and (null, /a/). */
  lemma RejectedInputs()
    ensures AssertVectorLike(Object(Other, Undefined), Undefined) == Err(TypeError)
    ensures AssertVectorLike(Array([Other, Object(Undefined, Undefined)]), Undefined) == Err(TypeError)
    ensures AssertVectorLike(Array([Number(0.0), Array([])]), Undefined) == Err(TypeError)
    ensures AssertVectorLike(Other, Number(5.0)) == Err(TypeError)
    ensures AssertVectorLike(Null, Object(Undefined, Undefined)) == Err(TypeError)
  {
  }
}
