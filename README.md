# AABBDD in Dafny

A model of `AABBDD`, a two-dimensional axis-aligned bounding box. It is stored as two vectors, `center` and
`extents`, and it spans `center - extents .. center + extents` on each axis. The model covers:

- the argument normaliser `assertVectorLike`;
- the in-place mutators `translate`, `scale` and `expand`;
- the queries `getMin`, `getMax`, `getSize`, `getArea`, `containsPoint`, `support` and `nearestPointOnBounds`;
- the relations `equals`, `containsAABB` and `intersects`;
- the static builders `combine` and `minkowskiDifference`.

Coordinates are `real`, so every sum, product and halving is exact.

Layout:

- `vectors.dfy` (`Vectors`): the value vector `Vec`, standing in for the library's `Vector2D`.
- `vector_like.dfy` (`VectorLike`): JavaScript arguments as a datatype `JsValue`, the two exceptions
  (`TypeError`, `RangeError`) as a `Result`, and `AssertVectorLike`.
- `bounds.dfy` (`Bounds`): the box value `Aabb` and every operation that only reads a box. It also holds
  `Translated`, `Scaled` and `Expanded`, the values the mutators produce.
- `corners.dfy` (`Corners`): what `support` returns, both as documented and as the loop is written.
- `nearest.dfy` (`Nearest`): what `nearestPointOnBounds` returns, characterised by its visiting order and tie rule.
- `box.dfy` (`Aabbdd`): the object. Class `Box` has mutable `center` and `extents` fields, and its `Value()`
  is the `Aabb` the queries read. The mutators are `modifies this` methods. `support` is a loop and
  `nearestPointOnBounds` is a sequence of overwriting steps, as in the source. Each is proved against the
  specification in `Corners` or `Nearest`.

Where the code and the repository's tests or documentation disagree, the model follows the code:

- `assertVectorLike([])` throws, because both components destructure to `undefined`. test/test.js:263-274
  expects it not to throw. See `VectorLike.ArrayNeedsTwoNumbers`.
- `scale({x: 2})` scales the y extent by 0, not 1. The missing key defaults to 0 inside `assertVectorLike`,
  and scale's own default of 1 applies only to an omitted argument. See `Aabbdd.Box.Scale`.
- `nearestPointOnBounds` copies the point's other coordinate unclamped. For a point outside the box, the
  answer can therefore lie off the box. See `Nearest.NearestOfOutsidePointLeavesBox`.
- The shared-vertex defect in `support` is under "## Findings".

## Model

| member | source | states |
|---|---|---|
| `VectorLike.AssertVectorLike` | index.js:125-140 | The only failure is a TypeError. Success needs a number, array, object or Vector2D first argument. Two numbers are taken as they are. An array yields its first two elements, and both must be numbers. An accepted object yields its own x and y, with an absent key read as 0. A Vector2D yields its components. |
| `VectorLike.SecondArgumentIgnored` | index.js:126-131 | For an object, an array, a Vector2D or null, the second argument does not affect the result. |
| `VectorLike.ObjectKeysDefaultToZero` | index.js:130-136 | An object is accepted exactly when each key is absent or a number. An accepted object gives its own x and y, with an absent key read as 0: {} gives (0, 0), {x: a} gives (a, 0), {y: b} gives (0, b) and {x: a, y: b} gives (a, b). |
| `VectorLike.VectorPassesThrough` | index.js:126-139 | A Vector2D instance gives its own components. |
| `VectorLike.NumbersAccepted` | index.js:134-139 | Two numbers give that vector, and so does a two-number array. One number alone is a TypeError. |
| `VectorLike.ArrayNeedsTwoNumbers` | index.js:127-136 | An array is accepted exactly when its first two elements exist and are numbers. The empty array is rejected. |
| `VectorLike.RejectedInputs` | test/test.js:216-291 | The inputs the tests expect to throw all give TypeError. |
| `Bounds.Min` | index.js:168-174 | getMin is the point that, plus the extents, gives the center. |
| `Bounds.Max` | index.js:182-188 | getMax is the point that, minus the extents, gives the center. |
| `Bounds.Size` | index.js:196-202 | getSize equals getMax minus getMin. |
| `Bounds.Area` | index.js:245-247 | getArea is the width times the height of getSize. |
| `Bounds.FromBounds` | index.js:406-418 | Rebuilding a box from lo and hi (half the span as extents) gives a box whose min is lo and whose max is hi. |
| `Bounds.BoundsDetermineBox` | index.js:168-188 | Two boxes with the same min and max are equal. |
| `Bounds.FromBoundsOfBounds` | index.js:406-418 | Rebuilding a box from its own bounds gives the same box. |
| `Bounds.ContainsPoint` | index.js:275-290 | containsPoint fails, with TypeError, exactly when the point alone fails the normaliser. Otherwise it answers the inclusive or exclusive bounds test for the resolved point. |
| `Bounds.ExclusiveImpliesInclusive` | index.js:280-289 | An exclusive hit is also an inclusive hit. |
| `Bounds.PerimeterOnlyInclusive` | index.js:280-289 | A point on a side line is never contained exclusively. On the max-x side of a proper box it is contained inclusively exactly when its y lies within the bounds. |
| `Bounds.ContainsCenter` | index.js:286-289 | A box with non-negative extents contains its center inclusively. With positive extents it contains it exclusively. |
| `Bounds.PointArgumentShapes` | index.js:276 | A bare number is rejected as a point. A two-number array is tested as that point. |
| `Bounds.Equals` | index.js:257-262 | equals holds exactly when the two boxes have the same center and the same extents. |
| `Bounds.EqualsReflexive` | index.js:261 | equals is reflexive. |
| `Bounds.EqualsSymmetric` | index.js:261 | equals is symmetric. |
| `Bounds.ContainsAabb` | index.js:339-352 | If containsAABB holds, every point inclusively in the other box is in this one. For a non-inverted other box the converse also holds. |
| `Bounds.ContainsAabbReflexive` | index.js:348-351 | Every box contains itself. |
| `Bounds.ContainsAabbTransitive` | index.js:348-351 | containsAABB is transitive. |
| `Bounds.ContainsAabbAntisymmetric` | index.js:348-351 | Two boxes that contain each other are equal. |
| `Bounds.Intersects` | index.js:361-375 | If the two boxes share any point, intersects holds. If it holds for boxes with non-negative extents, the corner at the componentwise max of the two mins lies in both boxes. `Bounds.IntersectsSymmetric`, `Bounds.TouchingBoxesIntersect` and `Bounds.IntersectsIffCommonPoint` complete its meaning. |
| `Bounds.IntersectsSymmetric` | index.js:361-375 | intersects is symmetric. |
| `Bounds.TouchingBoxesIntersect` | index.js:371-374 | Boxes that meet only along an edge intersect. |
| `Bounds.IntersectsIffCommonPoint` | index.js:371-374 | For non-inverted boxes, intersects holds exactly when the two boxes share a point. |
| `Bounds.ContainedIntersects` | index.js:348-374 | A non-inverted box contained in another intersects it. |
| `Bounds.Combine` | index.js:387-419 | The combined min is the componentwise min of the two mins, and the max is the componentwise max of the two maxes. The combined box contains both inputs. |
| `Bounds.CombineCommutative` | index.js:400-404 | combine(a, b) equals combine(b, a). |
| `Bounds.CombineIdempotent` | index.js:400-418 | combine(a, a) equals a. |
| `Bounds.CombineAssociative` | index.js:400-404 | combine is associative. |
| `Bounds.CombineIsLeast` | index.js:400-404 | Any box that contains both inputs also contains their combination. |
| `Bounds.MinkowskiDifference` | index.js:430-451 | The extents are the sum of the two extents, and the bounds run from aMin - bMax to aMax - bMin. The box contains the origin exactly when a intersects b. |
| `Bounds.MinkowskiContainsIffShiftedIntersects` | index.js:434-445 | The difference contains q exactly when b, moved by q, intersects a. |
| `Bounds.MinkowskiOriginTest` | index.js:430-451 | containsPoint of the origin on the difference answers a.intersects(b). |
| `Bounds.Translated` | index.js:153-160 | Translating moves min and max by the vector and keeps the extents. |
| `Bounds.Scaled` | index.js:214-220 | Scaling keeps the center. The size is multiplied componentwise, and the area by the product of the factors. |
| `Bounds.Expanded` | index.js:232-238 | Expanding keeps the center and moves min down and max up by the vector. A non-negative expansion contains the old box. |
| `Bounds.TranslateRoundTrip` | index.js:156-157 | Translating by v and then by -v restores the box. |
| `Bounds.TranslatePreservesContainment` | index.js:156-157 | A translated box contains the translated point exactly when the original box contains the original point. |
| `Bounds.DefaultsAreNoOps` | index.js:153-238 | The default arguments (0, 0), (1, 1) and (0, 0) leave the box unchanged. |
| `Corners.SupportOf` | index.js:66-113 | A failure is a RangeError exactly for a zero Vector2D direction. Otherwise it is a TypeError: a non-Vector2D direction, or non-zero extents where every corner's dot product is 0. |
| `Corners.SupportAsWrittenOf` | index.js:84-112 | The shared-vertex loop fails on exactly the inputs where the documented support fails. |
| `Corners.BestCornerIsEarliestBest` | index.js:84-109 | Outside the degenerate case, the closed-form corner has a positive score, scores at least as much as every corner, and scores more than every earlier corner. |
| `Corners.EarliestBestUnique` | index.js:103-106 | At most one corner wins the strict-greater scan. |
| `Corners.NoPositiveCornerIffDegenerate` | index.js:81-112 | No corner scores above 0 exactly when both axis terms of the dot product are 0. |
| `Corners.SupportIsEarliestMaximum` | index.js:59-112 | For a non-zero direction and non-zero extents, support succeeds exactly when some corner scores above 0. It then returns the center plus the earliest corner of largest dot product. |
| `Corners.SupportOfPointIsCenter` | index.js:74-76 | With zero extents, support returns the center for every non-zero direction. |
| `Corners.SupportFollowsSigns` | test/test.js:154-177 | With positive extents and a direction off both axes, the corner's signs are the direction's signs. |
| `Corners.SupportFailsAcrossFlatAxis` | index.js:81-112 | A flat box with a non-zero y extent, probed along its zero-extent x axis, has no corner scoring above 0, and support fails with TypeError. |
| `Corners.AsWrittenAgreesOnlyAtLastCorner` | index.js:88-105 | The shared-vertex loop agrees with the documented answer exactly when that answer is the last corner visited. |
| `Corners.AsWrittenCounterexample` | index.js:105 | For extents (2, 3) and direction (1, 1), the documented answer is (2, 3) and the shared-vertex loop gives (2, -3). |
| `Nearest.ChosenLineExists` | index.js:308-327 | For every box and point, some side line satisfies the last-minimal-distance rule. |
| `Nearest.ChosenLineUnique` | index.js:308-327 | At most one side line satisfies the last-minimal-distance rule. With `Nearest.ChosenLineExists`, exactly one does. |
| `Nearest.NearestChoiceUnique` | index.js:308-329 | The answer is determined by the box and the point. |
| `Nearest.NearestOfInsidePointIsOnPerimeter` | index.js:300-330 | For a point inside the box, the answer is on the perimeter: inclusively contained, not exclusively. |
| `Nearest.NearestOffsetIsLeastDistance` | index.js:308-327 | For every point, inside the box or outside it, the answer's offset from the point is at most each of the four side distances and equal to one of them, so it is their minimum. |
| `Nearest.InsidePointAnswerIsNearestOnPerimeter` | index.js:292-330 | For a point inside the box, no point on the box's perimeter is nearer to it than the answer, measuring by the sum of the axis offsets. |
| `Nearest.NearestOfOutsidePointLeavesBox` | index.js:308-327 | For a point beyond the max corner that is nearer the top line than the right line, the answer is (p.x, max.y), which lies off the box. |
| `Aabbdd.Box.constructor` | index.js:24-46 | A box built from two vectors has them as center and extents. |
| `Aabbdd.Box.Copy` | index.js:34-45 | A box built from another box has that box's center and extents. |
| `Aabbdd.Box.Translate` | index.js:153-160 | The center becomes the old center plus the normalised argument, which defaults to (0, 0), and the method returns the box itself. A rejected argument returns its TypeError and leaves the box unchanged. With no arguments it does nothing. |
| `Aabbdd.Box.Scale` | index.js:214-220 | The extents are multiplied componentwise by the argument, which defaults to (1, 1), and the method returns the box itself. A rejected argument leaves the box unchanged. {x: 2} zeroes the y extent. |
| `Aabbdd.Box.Expand` | index.js:232-238 | The argument, which defaults to (0, 0), is added to the extents, and the method returns the box itself. A rejected argument leaves the box unchanged. |
| `Aabbdd.Box.Support` | index.js:66-113 | The corner loop, keeping a copy of the best vertex, returns exactly the documented support. |
| `Aabbdd.Box.SupportAsWritten` | index.js:66-113 | The corner loop, keeping the best vertex by reference to the one mutated vertex object, returns exactly the shared-vertex answer. |
| `Aabbdd.Box.NearestPointOnBounds` | index.js:300-330 | An unusable point gives a TypeError. Otherwise the answer is the projection onto the last side line whose distance is minimal among the four. |
| `Aabbdd.Box.Combine` | index.js:387-419 | A fresh box with the combined value. The inputs are not modified. |
| `Aabbdd.Box.MinkowskiDifference` | index.js:430-451 | A fresh box with the Minkowski-difference value. The inputs are not modified. |
| `Aabbdd.TranslateThereAndBack` | index.js:153-160 | Translating a box by (a, c) and then by (-a, -c) leaves it unchanged. |

## Findings

| source | as written | input that shows it | evidently intended | confidence | as-written member | corrected member |
|---|---|---|---|---|---|---|
| index.js:105 | `furthestVertex = vertex` stores a reference to the one vertex object that lines 91-97 keep flipping. Whenever any corner scores above 0, the result is the last corner, center + (ex, -ey). | center (0, 0), extents (2, 3), direction (1, 1): returns (2, -3) | The corner of largest dot product, (2, 3). This is what the doc comment at index.js:59-64 and test/test.js:162-164 expect. | high; not executed | `Aabbdd.Box.SupportAsWritten` (`Corners.AsWrittenCounterexample`) | `Aabbdd.Box.Support` (`Corners.SupportIsEarliestMaximum`) |

## Left out

- The friendly-vectors `Vector2D` class is not part of this model. It is replaced by the value `Vec`, whose
  sum and dot product are componentwise. `magnitude() === 0` is modelled as both components being 0.
- IEEE floating point is not modelled: no rounding, NaN or infinities. NaN passes the `typeof` number check
  in the source.
- The constructor's type sniffing (index.js:24-46) is not modelled. That covers the `typeof`/`instanceof`
  checks and their TypeErrors, and conversion through `new Vector2D`. The model builds a box from two `Vec`
  values or copies another box.
- Aliasing of vector objects is not modelled, because `center` and `extents` are values. The source reuses a
  caller's `Vector2D` objects as the box's fields (index.js:34-45). Its mutators then change those shared
  objects. For zero extents, `support` returns the box's own `center` object (index.js:75).
- The `instanceof AABBDD` checks and their TypeErrors in `equals`, `containsAABB`, `intersects`, `combine` and
  `minkowskiDifference` are not modelled. Their arguments are typed as boxes here.
- The `getVector` flag of `getMin`, `getMax` and `getSize` is not modelled. It only chooses between a plain
  object and a `Vector2D` holding the same numbers.
- The aliases are not modelled: `offset` is only another name for `translate`. `enclose` is assigned
  `this.combine`, which is undefined on instances because `combine` is static (index.js:55). `containsAABBDD`
  is never defined, although test/test.js:103-112 expects it.
- `containsPoint`'s `exclusive` flag is a `bool`. JavaScript truthiness of other values is not modelled.
- Corners.SupportOf: when no corner scores above 0, `Vector2D.add` receives `undefined`. The model assumes
  this throws a TypeError, because the library's behaviour on that input is not part of this model.
- Array holes, getters, and `x`/`y` keys inherited through a prototype are not distinguished from plain
  values and absent keys.
