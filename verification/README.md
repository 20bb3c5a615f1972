# three.qml math core in Dafny

This project models the exact-arithmetic core of three.qml, a C++/Qt port of the three.js
math library, together with its scene-graph transform tree. Every `double` is a Dafny
`real`, so the model covers the code that uses only `+ - * /` and comparisons.

## What the model is

- One module per source file.
  - `Vec2`, `Vec3` and `Vec4` hold the vectors.
  - `Mat3` and `Mat4` hold the matrices.
  - `Quat` holds the quaternions and `Euler` the Euler angles.
  - `Plane`, `Line3`, `Box2`, `Box3`, `Sphere`, `Triangle`, `Frustum` and `Ray` hold the geometry.
  - `Spline` holds the Catmull-Rom spline.
  - `LayerMask` holds `Layers`, and `MathUtil` holds the helpers of `math.hpp`.
  - `SceneGraph` holds `Object3D`.
- The `.cpp` files that close include cycles in the C++ headers get their own modules:
  - `Vec3Apply` for `vector3.cpp`;
  - `PlaneBox` for `plane.cpp`;
  - `BoxSphere` for `box3.cpp`.
- `Projection` holds `Matrix4`'s `makeFrustum` and `makeOrthographic`. They sit apart from
  `Mat4` so that its other proofs do not reason about their divisions.
- Objects are immutable records. A C++ method that changes `*this` and returns it becomes a
  pure function from the old value to the new one.
- Matrices are records whose fields `e0`…`e15` (`e0`…`e8` for `Matrix3`) follow the column-major
  order of `elements`. `Entry(m, i, j)` reads row `i`, column `j`.
- The `Layers` mask, `isPowerOfTwo` and `nextPowerOfTwo` work on `bv32`, the 32-bit pattern of
  the C++ `int`. `euclideanModulo` spells out C++'s truncating `%` (`MathUtil.TruncRem`).
- A square root appears where a normalisation needs a length:
  - `Plane.normalize`, `Triangle.normal`, `Sphere.clampPoint`, `Frustum.setFromMatrix` and
    the non-zero branch of `Quaternion.normalize`.
  - In each of them the length is a parameter `len`, and the precondition requires it to be
    the non-negative root.
- An `Object3D` is a tree value: each node holds its children.
  - The parent link is replaced by the parent's world matrix (`Option<Matrix4>`, `None` at the
    root).
  - An ancestor chain is given by a root and a path of child indices.
  - The id counter is passed in and handed back.
- A few pieces of the source do not compile as written. The model follows their evident intent:
  - `Plane` reads the private `start`/`end` of `Line3`.
  - `object3d.h` declares `scale` as a `double` but passes it to `compose` as a vector, so it is
    a `Vector3` here.
  - `Sphere::intersectsSphere` is declared to return a `double` and returns a `bool` comparison,
    which C++ converts to `0.0` or `1.0`. The model narrows the result to `bool`.
- `Matrix3`'s inverse is stated through `Cofactors`, the cofactor formulas that
  `getInverse` writes into `te[0..8]`. `Adjugate(m)` is the cofactor matrix of `m`'s upper 3×3.
  `Matrix3` has no product in the source, so `Mat3.Multiply` exists only to state the inverse.

## Model

| member | source | states |
|---|---|---|
| MathUtil.Clamp | src/three/math/math.hpp:18-22 | For `lo <= hi` the result lies in `[lo, hi]`. A value already inside is returned unchanged, and one above `hi` gives `hi`. A value below `lo` gives `lo`, whatever `hi` is. |
| MathUtil.ClampIdempotent | src/three/math/math.hpp:18-22 | Clamping a clamped value changes nothing. |
| MathUtil.TruncRem | src/three/math/math.hpp:27-31 | C++ `%` rounds toward zero. It agrees with the mathematical remainder for `n >= 0` and is the negated remainder of `-n` for negative `n`. |
| MathUtil.EuclideanModulo | src/three/math/math.hpp:27-31 | For `m > 0` the result is in `[0, m)` and congruent to `n` modulo `m`. For `m < 0` it lies in `(m, 0]`. |
| MathUtil.MapLinear | src/three/math/math.hpp:35-39 | The result lies on the straight line through `(a1, b1)` and `(a2, b2)` at abscissa `x`. |
| MathUtil.MapLinearEndpoints | src/three/math/math.hpp:35-39 | `a1` maps to `b1` and `a2` maps to `b2` when `a1 != a2`. |
| MathUtil.Smoothstep | src/three/math/math.hpp:43-50 | 0 at or below `min`, 1 above `min` and at or above `max`, and always within `[0, 1]`. |
| MathUtil.Smootherstep | src/three/math/math.hpp:53-60 | Same endpoints and the same `[0, 1]` bound as `smoothstep`. |
| MathUtil.IsPowerOfTwoIffSingleBit | src/three/math/math.hpp:102-105 | `(v & (v - 1)) == 0 && v != 0` holds exactly when one bit of `v` is set. |
| MathUtil.NextPowerOfTwo | src/three/math/math.hpp:113-123 | For `1 <= v <= 2^30` the bit-smearing result is a power of two `p` with `v <= p < 2v`. |
| LayerMask.NewLayers | src/three/core/layers.h:10-14 | A fresh layer set has channel 0 enabled and no other. |
| LayerMask.Set | src/three/core/layers.h:16-19 | After `set(c)`, `c` is the only enabled channel. |
| LayerMask.Enable | src/three/core/layers.h:21-24 | `enable(c)` adds `c` and leaves every other channel as it was. |
| LayerMask.Toggle | src/three/core/layers.h:26-29 | `toggle(c)` flips `c` and leaves every other channel as it was. |
| LayerMask.Disable | src/three/core/layers.h:31-34 | `disable(c)` clears `c` and leaves every other channel as it was. |
| LayerMask.Test | src/three/core/layers.h:36-39 | `test` holds exactly when some channel is enabled in both sets. |
| LayerMask.ToggleTwice | src/three/core/layers.h:26-29 | Toggling the same channel twice restores the mask. |
| LayerMask.TestSymmetric | src/three/core/layers.h:36-39 | `test` is symmetric, and a non-empty set meets itself. |
| LayerMask.EnableMeetsSet | src/three/core/layers.h:16-24 | After `enable(c)`, the set meets any set that was `set(c)`. |
| Vec2.SetWidth | src/three/math/vector2.h:25-31 | `setWidth` changes the width (`x`) and keeps the height. |
| Vec2.SetHeight | src/three/math/vector2.h:33-39 | `setHight` changes the height (`y`) and keeps the width. |
| Vec2.SetComponent | src/three/math/vector2.h:67-88 | `getComponent(i)` reads back the value set at index `i`, and the other component is unchanged. |
| Vec2.Add | src/three/math/vector2.h:101-106 | Subtracting `w` after adding it restores the vector. |
| Vec2.AddScalar | src/three/math/vector2.h:113-118 | `subScalar(s)` undoes `addScalar(s)`, which is adding the all-`s` vector. |
| Vec2.AddScaledVector | src/three/math/vector2.h:127-132 | Adds `w` scaled by `s`; a zero scale is a no-op. |
| Vec2.Divide | src/three/math/vector2.h:174-180 | For non-zero divisor components, the quotient times the divisor is the dividend. |
| Vec2.DivideScalar | src/three/math/vector2.h:182-194 | A zero scalar gives `(0, 0)`. Otherwise the quotient times `s` is the original vector. |
| Vec2.Min | src/three/math/vector2.h:196-205 | Componentwise minimum: below both inputs, and each component is taken from one of them. |
| Vec2.Max | src/three/math/vector2.h:207-216 | Componentwise maximum: above both inputs, and each component is taken from one of them. |
| Vec2.Clamp | src/three/math/vector2.h:219-232 | With `min <= max` the result lies in the box, a point inside is unchanged, and each axis is the scalar clamp. |
| Vec2.ClampCrossedBounds | src/three/math/vector2.h:219-232 | With crossed bounds the vector clamp takes `max` and the scalar `clamp` takes `min`: `2` clamped to `[1, 0]` gives `0` and `1` respectively. |
| Vec2.ClampScalar | src/three/math/vector2.h:234-240 | The result lies between the all-`lo` and all-`hi` vectors, and a vector already between them is unchanged. |
| Vec2.Negate | src/three/math/vector2.h:280-285 | The negation is the additive inverse. |
| Vec2.LengthSqIsDot | src/three/math/vector2.h:287-295 | `lengthSq` is the dot product of the vector with itself. |
| Vec2.LengthManhattan | src/three/math/vector2.h:302-305 | Non-negative, and zero exactly for the zero vector. |
| Vec2.DistanceToSquaredSymmetric | src/three/math/vector2.h:325-329 | The squared distance is the squared length of the difference, and it is symmetric. |
| Vec2.Lerp | src/three/math/vector2.h:340-345 | Alpha 0 gives the vector itself and alpha 1 gives the target. |
| Vec2.Equals | src/three/math/vector2.h:347-350 | `equals` is value equality. |
| Vec2.ToArray | src/three/math/vector2.h:352-362 | `fromArray(toArray(v))` gives back `v`. |
| Vec3.SetComponent | src/three/math/vector3.h:66-89 | Index `i` reads back its new value, and the other two components are unchanged. |
| Vec3.Add | src/three/math/vector3.h:104-110 | `sub(w)` after `add(w)` restores the vector. |
| Vec3.SubZero | src/three/math/vector3.h:141-147 | The difference is zero exactly when the two vectors are equal. |
| Vec3.AddScalar | src/three/math/vector3.h:117-123 | `subScalar(s)` undoes `addScalar(s)`, which is adding the all-`s` vector. |
| Vec3.AddScaledVector | src/three/math/vector3.h:133-139 | Adds `w` scaled by `s`; a zero scale is a no-op. |
| Vec3.Divide | src/three/math/vector3.h:230-237 | For non-zero divisor components, the quotient times the divisor is the dividend. |
| Vec3.DivideScalar | src/three/math/vector3.h:239-243 | The source asserts a non-zero scalar. The quotient times the scalar is the original vector. |
| Vec3.Min | src/three/math/vector3.h:245-251 | The greatest vector below both inputs in the componentwise order. |
| Vec3.Max | src/three/math/vector3.h:253-259 | The least vector above both inputs in the componentwise order. |
| Vec3.Clamp | src/three/math/vector3.h:261-268 | With `min <= max` the result lies in the box, a point inside is unchanged, and each axis is the scalar clamp. |
| Vec3.ClampScalar | src/three/math/vector3.h:270-276 | The result lies between the all-`lo` and all-`hi` vectors, and a vector already between them is unchanged. |
| Vec3.Negate | src/three/math/vector3.h:320-326 | The negation is the additive inverse. |
| Vec3.LengthSqZero | src/three/math/vector3.h:328-336 | `lengthSq` is `v · v`, is non-negative, and is zero only for the zero vector. |
| Vec3.LengthManhattan | src/three/math/vector3.h:343-346 | Non-negative, and zero exactly for the zero vector. |
| Vec3.Lerp | src/three/math/vector3.h:358-365 | Alpha 0 gives the vector itself and alpha 1 gives the target. |
| Vec3.LerpVectors | src/three/math/vector3.h:367-371 | Alpha 0 gives `v1` and alpha 1 gives `v2`. |
| Vec3.LerpVectorsIsLerp | src/three/math/vector3.h:358-371 | `lerpVectors(v1, v2, a)` equals `v1.lerp(v2, a)` for every `a`. |
| Vec3.CrossVectors | src/three/math/vector3.h:387-395 | The cross product is orthogonal to both factors. |
| Vec3.Cross | src/three/math/vector3.h:373-380 | The in-place `cross` equals `crossVectors` of the old value and the argument. It reads the old components before writing. |
| Vec3.CrossAntiCommutative | src/three/math/vector3.h:387-395 | `a × b = -(b × a)`. |
| Vec3.Reflect | src/three/math/vector3.h:414-419 | Against a unit normal, reflection negates the component along the normal. |
| Vec3.ReflectFlips | src/three/math/vector3.h:414-419 | `v - 2 (v · n) n` has the opposite component along a unit `n`. |
| Vec3.ReflectTwice | src/three/math/vector3.h:414-419 | Reflecting twice in the same unit normal returns the original vector. |
| Vec3.DistanceToSquaredIsLengthSq | src/three/math/vector3.h:433-439 | The squared distance is the squared length of the difference. |
| Vec3.DistanceToSquaredZero | src/three/math/vector3.h:433-439 | The squared distance is non-negative and zero exactly between equal points. |
| Vec3.DistanceSymmetric | src/three/math/vector3.h:433-439 | The squared distance is symmetric. |
| Vec3.Equals | src/three/math/vector3.h:448-451 | `equals` is value equality. |
| Vec3.ToArray | src/three/math/vector3.h:453-465 | `fromArray` reads back what `toArray` wrote at the same offset, and no other element changes. |
| Vec3Apply.ApplyMatrix3Identity | src/three/math/vector3.cpp:16-26 | The identity matrix leaves the vector unchanged. |
| Vec3Apply.ApplyMatrix3Compose | src/three/math/vector3.cpp:16-26 | Applying `b` then `a` is applying the product `a b`. |
| Vec3Apply.ApplyMatrix4Identity | src/three/math/vector3.cpp:28-38 | The identity leaves the vector unchanged. |
| Vec3Apply.ApplyMatrix4Translation | src/three/math/vector3.cpp:28-38 | A translation matrix adds its offset. |
| Vec3Apply.ApplyMatrix4IgnoresBottomRow | src/three/math/vector3.cpp:28-38 | Elements 3, 7, 11 and 15 do not affect the result: w is taken as 1 and there is no divide. |
| Vec3Apply.ApplyMatrix4IsLinearPlusPosition | src/three/math/vector3.cpp:28-38 | The result is the upper 3×3 applied to the vector plus the position column. |
| Vec3Apply.ApplyMatrix4Compose | src/three/math/vector3.cpp:28-38 | For an affine `b`, applying `b` then `a` is applying `a b`. |
| Vec3Apply.ApplyProjection | src/three/math/vector3.cpp:40-49 | The result times the homogeneous `w` is what `applyMatrix4` gives, and it equals `applyMatrix4` when the bottom row is `[0 0 0 1]`. |
| Vec3Apply.ApplyQuaternionIdentity | src/three/math/vector3.cpp:51-70 | The identity quaternion leaves the vector unchanged. |
| Vec3Apply.ApplyQuaternionIsConjugation | src/three/math/vector3.cpp:51-70 | The two-step formula is the vector part of `q v q*`, whose scalar part is 0. |
| Vec3Apply.ApplyQuaternionLengthSq | src/three/math/vector3.cpp:51-70 | A unit quaternion preserves `lengthSq`. |
| Vec3Apply.RotationMatrixAppliesQuaternion | src/three/math/matrix4.h:244-278 | For a unit quaternion, applying `makeRotationFromQuaternion(q)` to any vector gives the same result as `applyQuaternion(q)`. |
| Vec3Apply.SetFromMatrixPosition | src/three/math/vector3.cpp:83-89 | The position read from elements 12..14 is the image of the origin. |
| Vec3Apply.SetFromMatrixPositionAfterSetPosition | src/three/math/vector3.cpp:83-89 | Reading the position after `setPosition(v)` gives `v`. |
| Vec3Apply.SetFromMatrixColumn | src/three/math/vector3.cpp:101-109 | Column `i` is the top three entries of column `i`, and column 3 is the position. |
| Vec3Apply.ColumnIsImageOfAxis | src/three/math/vector3.cpp:101-109 | Column `i` (for `i` < 3) is the image of the unit axis `i` under the upper 3×3. |
| Projection.MakeFrustum | src/three/math/matrix4.h:732-750 | The bottom row is `[0 0 -1 0]`, so the homogeneous `w` is `-z`. |
| Projection.MakeOrthographic | src/three/math/matrix4.h:764-783 | The bottom row is `[0 0 0 1]`. |
| Projection.FrustumMapsNearCorners | src/three/math/matrix4.h:732-750 | Projecting through `makeFrustum` sends the near rectangle's corners `(left, bottom, -near)` and `(right, top, -near)` to `(-1, -1, -1)` and `(1, 1, -1)`, with `w = near`. |
| Projection.FrustumMapsFarCorners | src/three/math/matrix4.h:732-750 | The far rectangle's corners, the near ones scaled by `far / near` at depth `-far`, go to `(-1, -1, 1)` and `(1, 1, 1)`, with `w = far`. |
| Projection.FrustumCornerHomogeneous | src/three/math/matrix4.h:732-750 | Before the division, each frustum corner goes to `w` times the matching corner of the clip cube. |
| Projection.OrthographicMapsBox | src/three/math/matrix4.h:764-783 | `makeOrthographic` is affine. It sends `(left, bottom, -near)` to `(-1, -1, -1)` and `(right, top, -far)` to `(1, 1, 1)`. |
| Vec4.Default | src/three/math/vector4.h:19-24 | The default vector is `(0, 0, 0, 1)`. |
| Vec4.SetComponent | src/three/math/vector4.h:75-98 | Index `i` reads back its new value, and the other three components are unchanged. |
| Vec4.SetComponentOwnValue | src/three/math/vector4.h:75-98 | Writing back the value just read changes nothing. |
| Vec4.Add | src/three/math/vector4.h:114-121 | `sub(u)` after `add(u)` restores the vector. |
| Vec4.AddScalar | src/three/math/vector4.h:128-135 | `subScalar(s)` undoes `addScalar(s)`, which is adding the all-`s` vector. |
| Vec4.AddScaledVector | src/three/math/vector4.h:146-153 | Adds `u` scaled by `s`; a zero scale is a no-op. |
| Vec4.DivideScalar | src/three/math/vector4.h:211-215 | The source asserts a non-zero scalar. The quotient times the scalar is the original vector. |
| Vec4.ApplyMatrix4IsProduct | src/three/math/vector4.h:197-209 | Component `i` of the result is row `i` of the matrix times the vector, using all four inputs. |
| Vec4.ApplyMatrix4Identity | src/three/math/vector4.h:197-209 | The identity leaves the vector unchanged. |
| Vec4.ApplyMatrix4AgreesWithVector3 | src/three/math/vector4.h:197-209 | With `w = 1`, the first three components agree with `Vector3::applyMatrix4`. |
| Vec4.ApplyMatrix4Compose | src/three/math/vector4.h:197-209 | Applying `b` then `a` is applying `a b`. |
| Vec4.Min | src/three/math/vector4.h:377-384 | Componentwise minimum: below both inputs, and each component is taken from one of them. |
| Vec4.Max | src/three/math/vector4.h:386-393 | Componentwise maximum: above both inputs, and each component is taken from one of them. |
| Vec4.Clamp | src/three/math/vector4.h:395-403 | With `min <= max` the result lies inside the bounds, and a vector already inside is unchanged. |
| Vec4.ClampIsScalarClamp | src/three/math/vector4.h:395-403 | With `min <= max` on an axis, that axis is the scalar clamp. |
| Vec4.ClampScalar | src/three/math/vector4.h:405-412 | The result lies between the all-`lo` and all-`hi` vectors, and a vector already between them is unchanged. |
| Vec4.Negate | src/three/math/vector4.h:450-457 | The negation is the additive inverse. |
| Vec4.NegateInvolution | src/three/math/vector4.h:450-457 | Negating twice restores the vector. |
| Vec4.LengthSqIsDot | src/three/math/vector4.h:459-467 | `lengthSq` is the dot product of the vector with itself. |
| Vec4.LengthManhattan | src/three/math/vector4.h:474-477 | Non-negative, and zero exactly for the zero vector. |
| Vec4.Lerp | src/three/math/vector4.h:489-496 | Alpha 0 gives the vector itself and alpha 1 gives the target. |
| Vec4.LerpVectors | src/three/math/vector4.h:498-502 | Alpha 0 gives `v1` and alpha 1 gives `v2`. |
| Vec4.LerpVectorsIsLerp | src/three/math/vector4.h:489-502 | `lerpVectors(v1, v2, a)` equals `v1.lerp(v2, a)`. |
| Vec4.Equals | src/three/math/vector4.h:504-507 | `equals` is value equality. |
| Mat3.ZeroIsSingular | src/three/math/matrix3.h:13-15 | The default matrix is nine zeros: its determinant is 0 and it is not the identity. |
| Mat3.Set | src/three/math/matrix3.h:27-38 | `set` stores `nij` at row `i`, column `j` of the column-major storage. |
| Mat3.ConstructAsWritten | src/three/math/matrix3.h:17-25 | The nine-argument constructor stores its arguments in order, so it builds the transpose of what `set` builds. |
| Mat3.ConstructorDisagreesWithSet | src/three/math/matrix3.h:17-38 | With `n12 = 1` and all else 0, the constructor puts the 1 at row 1, column 0, and `set` puts it at row 0, column 1. |
| Mat3.Construct | src/three/math/matrix3.h:17-25 | The corrected constructor agrees with `set`. |
| Mat3.IdentityDeterminant | src/three/math/matrix3.h:40-47 | `identity()` equals `set(1,0,0, 0,1,0, 0,0,1)` and has determinant 1. |
| Mat3.Copy | src/three/math/matrix3.h:54-64 | `copy` reproduces the source matrix exactly. |
| Mat3.DeterminantOfTranspose | src/three/math/matrix3.h:110-119 | Transposing does not change the determinant. |
| Mat3.Transpose | src/three/math/matrix3.h:153-163 | Entry `(i, j)` of the transpose is entry `(j, i)` of the input. |
| Mat3.TransposeInvolution | src/three/math/matrix3.h:153-163 | Transposing twice restores the matrix. |
| Mat3.Upper | src/three/math/matrix3.h:121-151 | The 3×3 that `getInverse` reads is the upper-left block of the `Matrix4`. |
| Mat3.InverseDeterminantIsDeterminant | src/three/math/matrix3.h:121-151 | The denominator `getInverse` computes from its cofactors is the determinant of the upper 3×3. |
| Mat3.GetInverse | src/three/math/matrix3.h:121-151 | With determinant 0 the result is the identity. Otherwise it is the adjugate divided by the determinant. |
| Mat3.AdjugateTimesUpper | src/three/math/matrix3.h:121-151 | The cofactor matrix times the upper 3×3 is the determinant times the identity. |
| Mat3.InverseTimesUpper | src/three/math/matrix3.h:121-151 | For a non-zero determinant, the result times the upper 3×3 is the identity. |
| Mat3.GetNormalMatrix | src/three/math/matrix3.h:186-193 | With determinant 0 the result is the identity. Otherwise the transpose of the upper 3×3 times the result is the identity, i.e. the result is the inverse transpose. |
| Mat3.ToArray | src/three/math/matrix3.h:212-221 | `fromArray(toArray(m))` gives back `m`. |
| Mat3.TransposeIntoArray | src/three/math/matrix3.h:195-210 | The array written reads back as the transpose. The matrix itself is not changed, because the function is pure. |
| Mat4.SetRowColumn | src/three/math/matrix4.h:27-40 | `set` stores `nij` at row `i`, column `j`, so `n12` lands in `te[4]`. |
| Mat4.EntryIsColumnMajor | src/three/math/matrix4.h:27-40 | Row `i`, column `j` is element `i + 4 j` of `elements`. |
| Mat4.MultiplyIsProduct | src/three/math/matrix4.h:318-355 | Entry `(i, j)` of the product is row `i` of `a` times column `j` of `b`. |
| Mat4.Multiply | src/three/math/matrix4.h:308-311 | Entry `(i, j)` of `multiply(m)` is the textbook sum over `k` of the old receiver's entry `(i, k)` times `m`'s entry `(k, j)`. Aliasing is safe because all inputs are read first. |
| Mat4.IdentityNeutral | src/three/math/matrix4.h:318-355 | The identity is a left and right neutral element of the product. |
| Mat4.TransposeEntry | src/three/math/matrix4.h:471-485 | Entry `(i, j)` of the transpose is entry `(j, i)` of the input. |
| Mat4.TransposeInvolution | src/three/math/matrix4.h:471-485 | Transposing twice restores the matrix. |
| Mat4.TransposeOfProduct | src/three/math/matrix4.h:471-485 | The transpose of `a b` is `bᵀ aᵀ`. |
| Mat4.InverseDeterminantIsDeterminant | src/three/math/matrix4.h:529-569 | The denominator `getInverse` computes from its first column of cofactors is the determinant of `determinant()`. |
| Mat4.GetInverse | src/three/math/matrix4.h:529-569 | With determinant 0 the result is the identity. Otherwise it is the adjugate divided by the determinant. |
| Mat4.AdjugateTimesMatrix | src/three/math/matrix4.h:529-569 | The adjugate that `getInverse` writes, times `m`, is the determinant times the identity. |
| Mat4.InverseTimesMatrix | src/three/math/matrix4.h:529-569 | For a non-zero determinant, `getInverse(m)` times `m` is the identity. |
| Mat4.SetPosition | src/three/math/matrix4.h:520-527 | `getPosition` then reads `v`, and no element outside 12..14 changes. |
| Mat4.CopyPosition | src/three/math/matrix4.h:63-73 | Copies elements 12..14 from `m` and keeps every other element. |
| Mat4.MakeTranslation | src/three/math/matrix4.h:595-604 | The translation matrix's position column is `(x, y, z)`. |
| Mat4.DeterminantOfTranslationAndScale | src/three/math/matrix4.h:420-469 | `det(makeTranslation) = 1` and `det(makeScale(x, y, z)) = x y z`. |
| Mat4.DeterminantOfIdentity | src/three/math/matrix4.h:420-469 | The identity has determinant 1. |
| Mat4.TranslationsCompose | src/three/math/matrix4.h:595-604 | The product of two translations is the translation by the sum. |
| Mat4.Scale | src/three/math/matrix4.h:571-582 | `scale` keeps the position column and element 15. |
| Mat4.ScaleIsProduct | src/three/math/matrix4.h:571-582 | `scale(v)` is right multiplication by `makeScale(v)`. |
| Mat4.MakeRotationFromQuaternion | src/three/math/matrix4.h:244-278 | The rotation has bottom row `[0 0 0 1]` and zero position. |
| Mat4.ExtractBasis | src/three/math/matrix4.h:75-84 | The three axes are the top three entries of the first three columns. |
| Mat4.MakeBasis | src/three/math/matrix4.h:86-94 | The axes become the first three columns, with zero translation and bottom row `[0 0 0 1]`. |
| Mat4.BasisRoundTrip | src/three/math/matrix4.h:75-94 | `extractBasis` reads back the axes `makeBasis` wrote. `makeBasis` of the extracted axes rebuilds every matrix with zero translation and bottom row `[0 0 0 1]`. |
| Mat4.RotationOfIdentityQuaternion | src/three/math/matrix4.h:244-278 | The identity quaternion gives the identity matrix. |
| Mat4.Compose | src/three/math/matrix4.h:672-679 | `compose(p, q, s)` has position column `p` and bottom row `[0 0 0 1]`. |
| Mat4.ComposeTranslation | src/three/math/matrix4.h:672-679 | `compose(p, identity, (1, 1, 1))` is `makeTranslation(p)`. |
| Mat4.ComposeIsProduct | src/three/math/matrix4.h:672-679 | `compose(p, q, s)` is the rotation of `q`, scaled by `s`, with position `p`. |
| Mat4.Equals | src/three/math/matrix4.h:786-795 | The 16-element loop returns true exactly when the matrices are equal. |
| Mat4.ToArray | src/three/math/matrix4.h:797-806 | `fromArray(toArray(m))` gives back `m`, and `toArray` is the only array that reads back as `m`. |
| Quat.Conjugate | src/three/math/quaternion.h:74-80 | Negates `x`, `y` and `z` and keeps `w`. |
| Quat.ConjugateInvolution | src/three/math/quaternion.h:74-80 | Conjugating twice restores the quaternion. |
| Quat.LengthSqConjugate | src/three/math/quaternion.h:82-97 | `lengthSq` is `q · q`, and conjugation preserves it. |
| Quat.Multiply | src/three/math/quaternion.h:126-129 | `multiply(q)` multiplies the squared lengths. The product's conjugate is the product of the conjugates in reverse order. Multiplying by the identity leaves the receiver unchanged. |
| Quat.IdentityNeutral | src/three/math/quaternion.h:137-148 | `(0, 0, 0, 1)` is a left and right neutral element of the product. |
| Quat.MultiplyAssociative | src/three/math/quaternion.h:137-148 | The Hamilton product is associative. |
| Quat.LengthSqMultiplicative | src/three/math/quaternion.h:137-148 | `lengthSq(a b) = lengthSq(a) lengthSq(b)`, the four-square identity. |
| Quat.MultiplyConjugate | src/three/math/quaternion.h:137-148 | `q q*` is the real quaternion `lengthSq(q)`. |
| Quat.ConjugateOfProduct | src/three/math/quaternion.h:137-148 | `(a b)* = b* a*`. |
| Quat.Normalize | src/three/math/quaternion.h:108-124 | A zero length gives `(0, 0, 0, 1)`. Otherwise every component is divided by the length. |
| Quat.NormalizeUnit | src/three/math/quaternion.h:108-124 | The result has `lengthSq` 1. |
| Quat.NormalizeUnitIdentity | src/three/math/quaternion.h:108-124 | Normalising with length 1 changes nothing. |
| Quat.Inverse | src/three/math/quaternion.h:68-72 | The inverse of the zero quaternion is the identity `(0, 0, 0, 1)`. |
| Quat.InverseOfUnit | src/three/math/quaternion.h:68-72 | A unit quaternion times its inverse is the identity. |
| Quat.Slerp | src/three/math/quaternion.h:150-196 | `t == 0` keeps the receiver and `t == 1` gives `qb`. Every modelled result is one of the two. |
| Quat.SlerpSameRotation | src/three/math/quaternion.h:150-196 | For a unit quaternion, slerping towards itself returns it for every `t`. Slerping towards its negation, the same rotation, always gives a result, and that result is the receiver whenever `t != 1`. |
| Quat.Equals | src/three/math/quaternion.h:198-205 | `equals` is value equality. |
| Euler.Default | src/three/math/euler.h:28-33 | The default angles are `(0, 0, 0)` in order `XYZ`. |
| Euler.Set | src/three/math/euler.h:42-49 | Stores exactly the given angles and order. |
| Euler.Copy | src/three/math/euler.h:56-64 | After `copy`, `equals` holds. |
| Euler.Equals | src/three/math/euler.h:74-77 | Value equality. Differing orders make it false. |
| Euler.OrderMatters | src/three/math/euler.h:74-77 | Equal angles in different orders are not equal, though `toVector3` cannot tell them apart. |
| Euler.SetFromVector3 | src/three/math/euler.cpp:15-18 | The angles are the vector's components, in the given order. |
| Euler.SetFromVector3RoundTrip | src/three/math/euler.cpp:15-23 | `toVector3` gives back the vector, and the order is the one passed. |
| Euler.ToVector3RoundTrip | src/three/math/euler.cpp:15-23 | Setting from `toVector3(e)` with `e`'s order rebuilds `e`. |
| Plane.Default | src/three/math/plane.h:21-23 | The default plane has zero normal and constant, so every point is at distance 0. |
| Plane.Set | src/three/math/plane.h:30-35 | Stores exactly the given normal and constant. |
| Plane.SetComponents | src/three/math/plane.h:37-42 | The normal is `(x, y, z)` and the distance of the origin is `w`. |
| Plane.SetFromNormalAndCoplanarPoint | src/three/math/plane.h:44-50 | Keeps the normal and puts the given point on the plane. |
| Plane.Normalize | src/three/math/plane.h:76-85 | The new normal has length 1, and every distance is the old distance divided by the length. |
| Plane.NormalizeKeepsSides | src/three/math/plane.h:76-85 | Normalising moves no point to the other side of the plane, or on or off it. |
| Plane.Negate | src/three/math/plane.h:87-92 | Every point's distance changes sign. |
| Plane.NegateInvolution | src/three/math/plane.h:87-92 | Negating twice restores the plane. |
| Plane.LineParameter | src/three/math/plane.h:118-142 | The parameter solves `denominator · t = -distance(start)`. |
| Plane.IntersectLine | src/three/math/plane.h:118-142 | A line parallel to the plane gives its start if the start is on the plane and zero otherwise. A crossing with `t` in `[0, 1]` gives the point at `t`; `t` outside gives zero. |
| Plane.AtIsOnPlane | src/three/math/plane.h:118-142 | The point at the computed parameter lies on the plane. |
| Plane.IntersectsLineFindsPoint | src/three/math/plane.h:118-151 | When `intersectsLine` holds, the parameter lies in `(0, 1)` and `intersectLine` returns a point on the plane. |
| Plane.IntersectsLine | src/three/math/plane.h:145-151 | True exactly when the endpoints lie strictly on opposite sides. An endpoint on the plane gives false. |
| Plane.CoplanarPoint | src/three/math/plane.h:161-165 | For a unit normal, `-constant · normal` lies on the plane. |
| Plane.OrthoPoint | src/three/math/plane.h:110-116 | For a unit normal, the result's component along the normal is the signed distance of the point. |
| Plane.ProjectPoint | src/three/math/plane.h:105-108 | The projection and `orthoPoint` add up to the point. For a unit normal the projection lies on the plane, and a point on the plane projects to itself. |
| Plane.ProjectPointIsNearest | src/three/math/plane.h:105-116 | For a unit normal, no point of the plane is closer to the point than its projection. |
| Plane.ApplyMatrix4WithNormalMatrixKeepsDistances | src/three/math/plane.h:184-197 | If the normal matrix undoes the transpose of the matrix's upper-left block and the normal has unit length, the image of every point is at the same signed distance from the new plane as the point was from the old one. |
| Plane.ApplyMatrix4KeepsDistances | src/three/math/plane.h:167-182 | With `getNormalMatrix` and an invertible upper-left block, every transformed point keeps its signed distance (unit normal). |
| Plane.Translate | src/three/math/plane.h:201-205 | The normal is kept, and the distance of `p + offset` after equals the distance of `p` before. |
| Plane.Equals | src/three/math/plane.h:207-210 | `equals` is value equality. |
| PlaneBox.IntersectsBox | src/three/math/plane.cpp:7-9 | Equals `box.intersectsPlane(plane)`. For a non-empty box: some box point has `normal · p <= constant` and some has `>= constant`. |
| PlaneBox.PointBox | src/three/math/plane.cpp:7-9 | For the box `[p, p]`, the test holds exactly when `normal · p == constant`. |
| Line3.Set | src/three/math/line3.h:22-27 | Stores exactly the given endpoints. |
| Line3.Center | src/three/math/line3.h:42-46 | Twice the center is `start + end`. |
| Line3.Delta | src/three/math/line3.h:48-52 | `start + delta == end`. |
| Line3.DistanceSq | src/three/math/line3.h:54-57 | The squared length of `delta`: non-negative and zero exactly for a degenerate segment. |
| Line3.DistanceSqSymmetric | src/three/math/line3.h:54-57 | Swapping the endpoints keeps `distanceSq`. |
| Line3.At | src/three/math/line3.h:64-68 | `at(0)` is `start` and `at(1)` is `end`. |
| Line3.ClosestPointToPointParameter | src/three/math/line3.h:70-87 | Unclamped, the parameter solves `t |delta|² = s`, with `s = delta · (p - start)`. Clamped, it is in `[0, 1]`: 0 when `s <= 0`, 1 when `s >= |delta|²`, and the solution of the same equation in between. |
| Line3.ClampedParameterIsClamp | src/three/math/line3.h:70-87 | The clamped parameter is the unclamped one clamped into `[0, 1]`. |
| Line3.ParameterIsProjection | src/three/math/line3.h:70-87 | For a proper segment, the unclamped point's offset from `p` is orthogonal to the line. |
| Line3.ParameterAtEndpoints | src/three/math/line3.h:70-87 | The parameter of `start` is 0 and that of `end` is 1, clamped or not. |
| Line3.ClosestPointToPoint | src/three/math/line3.h:89-94 | The point is `at(t)` for the computed parameter, and it is `start` or `end` when `p` is. |
| Line3.ApplyMatrix4 | src/three/math/line3.h:96-101 | Transforms both endpoints. The identity leaves the line unchanged. |
| Line3.Equals | src/three/math/line3.h:103-106 | `equals` is value equality. |
| Box2.Set | src/three/math/box2.h:23-30 | Stores exactly the given corners. |
| Box2.MakeEmpty | src/three/math/box2.h:62-67 | The result is the zero box. It contains only the origin and is not `isEmpty`. |
| Box2.IsEmptyIffNoPoint | src/three/math/box2.h:69-74 | `isEmpty` holds exactly when the box contains no point. |
| Box2.ContainsBoxIffPoints | src/three/math/box2.h:122-130 | `containsBox` holds exactly when every point of the inner box is in the outer box, for a non-empty inner box. |
| Box2.ContainsBoxOrder | src/three/math/box2.h:122-130 | `containsBox` is reflexive, transitive and antisymmetric. |
| Box2.Center | src/three/math/box2.h:76-82 | Twice the center is `min + max`, and a non-empty box contains its center. |
| Box2.Size | src/three/math/box2.h:84-89 | `min + size == max`, and the box is empty exactly when some size component is negative. |
| Box2.SetFromCenterAndSize | src/three/math/box2.h:41-48 | Reading back `center` and `size` gives the inputs. |
| Box2.ExpandByPoint | src/three/math/box2.h:91-96 | The result contains the point and the old box. |
| Box2.ExpandByPointLeast | src/three/math/box2.h:91-96 | It is the smallest such box. |
| Box2.ExpandByVector | src/three/math/box2.h:98-103 | The size grows by twice the vector, and a non-negative vector keeps the old box inside. |
| Box2.ExpandByScalar | src/three/math/box2.h:105-110 | Expanding by the all-`s` vector. A non-negative `s` keeps the old box inside. |
| Box2.ExpandByPoints | src/three/math/box2.h:32-39 | The loop's result contains the starting box and every point. |
| Box2.ExpandByPointsLeast | src/three/math/box2.h:32-39 | It is the smallest such box. |
| Box2.SetFromPoints | src/three/math/box2.h:32-39 | Contains every point and also the origin, because `makeEmpty` is the zero box. |
| Box2.SetFromPointsLeast | src/three/math/box2.h:32-39 | It is the smallest box containing the origin and the points. |
| Box2.IntersectsBoxSymmetric | src/three/math/box2.h:147-156 | `intersectsBox` is symmetric, and a non-empty box meets itself. |
| Box2.IntersectsBoxIffCommonPoint | src/three/math/box2.h:147-156 | For non-empty boxes, `intersectsBox` holds exactly when they share a point. |
| Box2.GetParameter | src/three/math/box2.h:132-144 | `min + r * size` is the point again. For a box of positive size, the point is contained exactly when both fractions are in `[0, 1]`. |
| Box2.ClampPoint | src/three/math/box2.h:158-162 | For a non-empty box, the result is contained, and it equals `p` exactly when `p` is contained. |
| Box2.Intersect | src/three/math/box2.h:171-176 | The result contains exactly the points common to both boxes. |
| Box2.Union | src/three/math/box2.h:178-183 | The result contains both boxes. |
| Box2.UnionLeast | src/three/math/box2.h:178-183 | It is the smallest such box. |
| Box2.Translate | src/three/math/box2.h:185-190 | The size is kept, and `p + offset` is inside after exactly when `p` was inside before. |
| Box2.Equals | src/three/math/box2.h:192-195 | `equals` is value equality. |
| Box3.Set | src/three/math/box3.h:29-36 | Stores exactly the given corners. |
| Box3.MakeEmpty | src/three/math/box3.h:139-144 | The result is the zero box. It contains only the origin and is not `isEmpty`. |
| Box3.IsEmptyIffNoPoint | src/three/math/box3.h:146-150 | `isEmpty` holds exactly when the box contains no point. |
| Box3.ContainsPointIsBetween | src/three/math/box3.h:191-200 | A point is contained exactly when `min <= p <= max` componentwise. |
| Box3.ContainsBoxIffPoints | src/three/math/box3.h:202-212 | `containsBox` holds exactly when every point of the inner box is in the outer box, for a non-empty inner box. |
| Box3.ContainsBoxOrder | src/three/math/box3.h:202-212 | `containsBox` is reflexive, transitive and antisymmetric. |
| Box3.Center | src/three/math/box3.h:152-162 | Twice the center is `min + max`, and a non-empty box contains its center. |
| Box3.Size | src/three/math/box3.h:164-168 | `min + size == max`, and the box is empty exactly when some size component is negative. |
| Box3.SetFromCenterAndSize | src/three/math/box3.h:79-89 | Reading back `center` and `size` gives the inputs. |
| Box3.ExpandByPoint | src/three/math/box3.h:170-175 | The result contains the point and the old box. |
| Box3.ExpandByPointLeast | src/three/math/box3.h:170-175 | It is the smallest such box. |
| Box3.ExpandByVector | src/three/math/box3.h:177-182 | The size grows by twice the vector, and a non-negative vector keeps the old box inside. |
| Box3.ExpandByScalar | src/three/math/box3.h:184-189 | Expanding by the all-`s` vector. A non-negative `s` keeps the old box inside. |
| Box3.ExpandByPoints | src/three/math/box3.h:70-77 | The loop's result contains the starting box and every point. |
| Box3.ExpandByPointsLeast | src/three/math/box3.h:70-77 | It is the smallest such box. |
| Box3.SetFromPoints | src/three/math/box3.h:70-77 | Contains every point and also the origin, because `makeEmpty` is the zero box. |
| Box3.SetFromPointsLeast | src/three/math/box3.h:70-77 | It is the smallest box containing the origin and the points. |
| Box3.IntersectsBoxSymmetric | src/three/math/box3.h:226-237 | `intersectsBox` is symmetric, and a non-empty box meets itself. |
| Box3.IntersectsBoxIffCommonPoint | src/three/math/box3.h:226-237 | For non-empty boxes, `intersectsBox` holds exactly when they share a point. |
| Box3.GetParameter | src/three/math/box3.h:214-224 | `min + r * size` is the point again. For a box of positive size, the point is contained exactly when all three fractions are in `[0, 1]`. |
| Box3.ClampPoint | src/three/math/box3.h:296-300 | A contained point is unchanged. For a non-empty box the result is contained, and it equals `p` exactly when `p` is contained. |
| Box3.ClampPointIsNearest | src/three/math/box3.h:296-300 | No point of the box is closer to `p` than the clamped point. |
| Box3.Intersect | src/three/math/box3.h:320-325 | The result contains exactly the points common to both boxes. |
| Box3.Union | src/three/math/box3.h:327-333 | The result contains both boxes. |
| Box3.UnionLeast | src/three/math/box3.h:327-333 | It is the smallest such box. |
| Box3.Translate | src/three/math/box3.h:354-359 | The size is kept, and `p + offset` is inside after exactly when `p` was inside before. |
| Box3.Equals | src/three/math/box3.h:361-364 | `equals` is value equality. |
| Box3.TransformedCorners | src/three/math/box3.h:335-352 | The eight points are the box's corners, each transformed by the matrix. |
| Box3.Corners | src/three/math/box3.h:335-352 | The eight corners start at `min` and end at `max`. |
| Box3.ApplyMatrix4 | src/three/math/box3.h:335-352 | The result contains every transformed corner, and also the origin, because the box starts from `makeEmpty`. |
| Box3.ApplyIdentity | src/three/math/box3.h:335-352 | The identity leaves a non-empty box that contains the origin unchanged. |
| Box3.ApplyIdentityReachesOrigin | src/three/math/box3.h:335-352 | The identity stretches `[(1,1,1), (2,2,2)]` down to the origin. |
| Box3.CornersBoundDot | src/three/math/box3.h:250-294 | The two corners `intersectsPlane` selects are in the box, and they bound `normal · p` over the box from below and above. |
| Box3.IntersectsPlane | src/three/math/box3.h:250-294 | True exactly when `constant` lies between the min and max of `normal · corner`. |
| Box3.IntersectsPlaneIffBracketed | src/three/math/box3.h:250-294 | For a non-empty box: some box point has `normal · p <= constant` and some has `>= constant`. |
| Box3.IntersectsPlaneSignCounterexample | src/three/math/box3.h:250-294 | The box `[4, 6] × [-1, 1]²` contains `(5, 0, 0)`, which lies on the plane `x - 5 = 0`, yet `intersectsPlane` is false and the corrected test is true. |
| Box3.IntersectsPlaneCorrected | src/three/math/box3.h:250-294 | The corrected test compares against `-constant`. |
| Box3.IntersectsPlaneCorrectedIffBothSides | src/three/math/box3.h:250-294 | For a non-empty box, the corrected test holds exactly when the box has points with signed distance `<= 0` and `>= 0`. |
| BoxSphere.IntersectsSphereIffCommonPoint | src/three/math/box3.cpp:7-15 | For a non-empty box and a non-negative radius, the test holds exactly when the box and the ball share a point. |
| BoxSphere.ContainedCenterIntersects | src/three/math/box3.cpp:7-15 | If the box contains the sphere's center, the test holds for any radius. |
| BoxSphere.LargerRadiusIntersects | src/three/math/box3.cpp:7-15 | A larger absolute radius keeps a true result. |
| BoxSphere.SphereIntersectsBox | src/three/math/sphere.h:102-105 | For a non-empty box, the result holds exactly when the box and the ball share a point. |
| Sphere.Default | src/three/math/sphere.h:22-24 | The default sphere has zero radius: it is `empty`, yet it contains the origin. |
| Sphere.Set | src/three/math/sphere.h:31-36 | Stores exactly the given center and radius. |
| Sphere.ContainsPointMagnitude | src/three/math/sphere.h:86-89 | The center is always contained, and only the radius's magnitude matters. |
| Sphere.IntersectsSphereSymmetric | src/three/math/sphere.h:96-100 | The test is symmetric, and a sphere meets itself. |
| Sphere.ContainedCenterIntersects | src/three/math/sphere.h:96-100 | With non-negative radii, a sphere whose center lies inside the other meets it. |
| Sphere.IntersectsPlaneSignCounterexample | src/three/math/sphere.h:107-119 | The unit sphere at `(5, 0, 0)` has its center on the plane `x - 5 = 0`, yet `intersectsPlane` is false and the corrected test is true. |
| Sphere.IntersectsPlane | src/three/math/sphere.h:107-119 | Take a unit normal and a non-negative radius. The test as written holds exactly when the sphere shares a point with the mirrored plane, the one with `-constant`, not with the given plane. |
| Sphere.IntersectsPlaneCorrected | src/three/math/sphere.h:107-119 | The corrected test is the as-written one applied to the plane with `-constant`. For a unit normal and a non-negative radius it holds exactly when some point of the sphere lies on the plane. |
| Sphere.CenterWithinRadiusIffMeets | src/three/math/sphere.h:107-119 | For a unit normal and a non-negative radius, `abs(distanceToPoint(center)) <= radius` holds exactly when the sphere and the plane share a point. |
| Sphere.ClampPoint | src/three/math/sphere.h:121-137 | A contained point is returned unchanged. Any other point is moved onto the surface. |
| Sphere.GetBoundingBox | src/three/math/sphere.h:139-146 | The box is `[center - r, center + r]`, and it contains the center when `r >= 0`. |
| Sphere.BoundingBoxContainsSphere | src/three/math/sphere.h:139-146 | Every point of the sphere lies in its bounding box. |
| Sphere.Translate | src/three/math/sphere.h:155-159 | The radius is kept, and `p + offset` is inside after exactly when `p` was inside before. |
| Sphere.TranslateKeepsDistances | src/three/math/sphere.h:155-159 | Shifting the point and the center by the same offset keeps their squared distance. |
| Sphere.Equals | src/three/math/sphere.h:161-164 | `equals` is value equality. |
| Triangle.BarycoordFromPoint | src/three/math/triangle.h:41-78 | A degenerate triangle gives `(-2, -1, -1)`. Otherwise the coordinates sum to 1. |
| Triangle.BarycoordOfCombination | src/three/math/triangle.h:41-78 | For a proper triangle, the point `a + t (b - a) + s (c - a)` has coordinates `(1 - s - t, t, s)`. |
| Triangle.BarycoordOfVertices | src/three/math/triangle.h:41-78 | For a proper triangle, `a`, `b` and `c` have coordinates `(1,0,0)`, `(0,1,0)` and `(0,0,1)`. |
| Triangle.ContainsPoint | src/three/math/triangle.h:86-92 | True exactly when the triangle is proper and all three coordinates are non-negative. |
| Triangle.ContainsCombination | src/three/math/triangle.h:86-92 | Every convex combination of the vertices of a proper triangle is contained. |
| Triangle.ContainsVertices | src/three/math/triangle.h:63-92 | A degenerate triangle contains no point. A proper one contains its vertices. |
| Triangle.NormalDirection | src/three/math/triangle.h:25-39 | The cross product of the edges is orthogonal to both edges. |
| Triangle.DenominatorIsNormalLengthSq | src/three/math/triangle.h:25-78 | The barycentric denominator is the squared length of that cross product, so the triangle is degenerate exactly when the cross product is zero. |
| Triangle.Normal | src/three/math/triangle.h:25-39 | A zero cross product gives the zero vector. Otherwise the normal has length 1. Either way it is orthogonal to the edges. |
| Triangle.MidpointAsWritten | src/three/math/triangle.h:133-138 | With `1 / 3` evaluated as integer division, the midpoint is always the origin. |
| Triangle.MidpointCounterexample | src/three/math/triangle.h:133-138 | For the vertices `(3,0,0)`, `(0,3,0)` and `(0,0,3)`, the midpoint as written is the origin, not `(1,1,1)`. |
| Triangle.Midpoint | src/three/math/triangle.h:133-138 | The corrected midpoint times 3 is the sum of the vertices. |
| Triangle.MidpointIsInside | src/three/math/triangle.h:133-138 | For a proper triangle, the corrected midpoint has coordinates `(1/3, 1/3, 1/3)` and is contained. |
| Triangle.Set | src/three/math/triangle.h:94-100 | Stores exactly the given vertices. |
| Triangle.SetFromPointsAndIndices | src/three/math/triangle.h:102-108 | Copies `points[i0]`, `points[i1]` and `points[i2]` into `a`, `b` and `c`. |
| Triangle.Equals | src/three/math/triangle.h:178-183 | `equals` is value equality. |
| Frustum.Default | src/three/math/frustum.h:23-24 | Six default planes: every point is inside. |
| Frustum.Set | src/three/math/frustum.h:30-42 | Stores the six planes in order. |
| Frustum.ContainsPoint | src/three/math/frustum.h:126-136 | True exactly when every plane's distance to the point is non-negative. |
| Frustum.IntersectsSphere | src/three/math/frustum.h:85-97 | False exactly when some plane's distance to the center is below `-radius`. |
| Frustum.ContainedCenterIntersects | src/three/math/frustum.h:85-97 | A contained center with a non-negative radius gives true. |
| Frustum.IntersectsSphereSound | src/three/math/frustum.h:85-97 | With unit normals, a ball sharing a point with the frustum is never rejected. |
| Frustum.SeparatesIffBoxBehind | src/three/math/frustum.h:99-123 | Both selected corners behind a plane means the whole non-empty box is behind it. |
| Frustum.IntersectsBox | src/three/math/frustum.h:99-123 | True exactly when no plane has both selected corners strictly behind it. |
| Frustum.IntersectsBoxIffNoPlaneSeparates | src/three/math/frustum.h:99-123 | For a non-empty box, false exactly when some plane has the whole box strictly behind it. |
| Frustum.IntersectsBoxSound | src/three/math/frustum.h:99-123 | A box sharing a point with the frustum is never rejected. |
| Frustum.RawPlaneDistances | src/three/math/frustum.h:55-72 | Before normalisation, each plane's distance is the clip `w` plus or minus one clip coordinate, for `w-x, w+x, w+y, w-y, w-z, w+z`. |
| Frustum.RawContainsPoint | src/three/math/frustum.h:55-72 | The unnormalised frustum contains exactly the points inside the clip volume `-w <= x, y, z <= w`. |
| Frustum.SetFromMatrix | src/three/math/frustum.h:55-72 | After normalisation, every plane has a unit normal and the frustum still contains exactly the points inside the clip volume. |
| Ray.Set | src/three/math/ray.h:34-39 | Stores exactly the given origin and direction. |
| Ray.At | src/three/math/ray.h:54-64 | `at(t) - origin == t · direction`, so `at(0)` is the origin. |
| Ray.Recast | src/three/math/ray.h:71-76 | Moves the origin to `at(t)` and keeps the direction. |
| Ray.RecastShiftsParameter | src/three/math/ray.h:71-76 | After `recast(t)`, parameter `s` reaches `at(t + s)`. |
| Ray.ClosestPointToPoint | src/three/math/ray.h:92-102 | A point behind the origin gives the origin. Otherwise the result is `at(d)` for the projected parameter `d`. |
| Ray.ClosestPointIsNearest | src/three/math/ray.h:92-102 | For a non-zero direction, no point of the ray is closer to `p`. |
| Ray.DistanceToPlane | src/three/math/ray.h:289-318 | A parallel ray gives `(true, 0)` if its origin is on the plane and `(false, -1)` otherwise. Any other ray gives the flag `t >= 0` with `at(t)` on the plane. |
| Ray.IntersectPlane | src/three/math/ray.h:320-333 | Uses the same flag as `distanceToPlane`. A hit is `at(t)` and lies on the plane; a miss gives zero. |
| Ray.IntersectsPlane | src/three/math/ray.h:336-354 | True when the origin is on the plane, otherwise exactly when `(normal · direction) · distance < 0`. |
| Ray.IntersectsPlaneIffDistanceFlag | src/three/math/ray.h:289-354 | `intersectsPlane` agrees with the flag of `distanceToPlane`. |
| Ray.Slab | src/three/math/ray.h:357-429 | The entry and exit parameters of one axis bracket exactly the `t` whose point is within that axis's bounds. |
| Ray.SlabParameterSound | src/three/math/ray.h:357-429 | A hit parameter is non-negative and its point lies in the box. |
| Ray.SlabParameterComplete | src/three/math/ray.h:357-429 | Any point of the box the ray reaches at some `t >= 0` is found. |
| Ray.IntersectBox | src/three/math/ray.h:357-429 | As written, the flag is false on every path. The point is `at(t)` on a hit and zero otherwise. |
| Ray.IntersectsBox | src/three/math/ray.h:431-436 | As written, it is always false. |
| Ray.IntersectsBoxMissesEveryHit | src/three/math/ray.h:357-436 | Whenever the ray reaches the box, `intersectsBox` is still false while the corrected flag is true. |
| Ray.CubeRayCounterexample | src/three/math/ray.h:357-436 | The ray from `(-5,-5,-5)` along `(1,1,1)` reaches the origin inside the cube `[-1, 1]³` at `t = 5`. |
| Ray.IntersectBoxCorrected | src/three/math/ray.h:357-429 | The corrected flag is the slab test. The point is the one the source computes, and it lies in a non-empty box on a hit. |
| Ray.IntersectsBoxCorrectedIff | src/three/math/ray.h:357-429 | The corrected flag holds exactly when some `t >= 0` puts the ray in the box. |
| Ray.IntersectTriangle | src/three/math/ray.h:438-514 | A ray parallel to the triangle misses. With culling, a front-facing hit misses. A miss returns zero. |
| Ray.IntersectTriangleHit | src/three/math/ray.h:438-514 | A hit is `at(t)` for some `t >= 0` and lies inside the triangle. |
| Ray.Equals | src/three/math/ray.h:525-528 | `equals` is value equality. |
| Spline.InitFromArray | src/three/math/spline.h:23-26 | The control points become the given array. |
| Spline.GetControlPointsArray | src/three/math/spline.h:63-76 | Returns the control points, in order and unchanged. |
| Spline.ControlPointsRoundTrip | src/three/math/spline.h:23-76 | Reading back after `initFromArray` gives the array, and storing what was read back changes nothing. |
| Spline.InterpolateIsHermite | src/three/math/spline.h:194-201 | `interpolate` is the cubic Hermite curve from `p1` to `p2` with Catmull-Rom tangents `(p2 - p0) / 2` and `(p3 - p1) / 2`. |
| Spline.InterpolateEnds | src/three/math/spline.h:194-201 | `t = 0` gives `p1` and `t = 1` gives `p2`. |
| Spline.InterpolateConstant | src/three/math/spline.h:194-201 | Four equal control values give that value for every `t`. |
| Spline.InterpolateLinear | src/three/math/spline.h:194-201 | Equally spaced control values give a straight line. |
| Spline.InterpolateReversed | src/three/math/spline.h:194-201 | Reversing the control values reverses the segment. |
| Spline.Segment | src/three/math/spline.h:29-37 | For `0 < k < 1`, the integer part of `(size - 1) k` is a valid segment start and the weight lies in `[0, 1)`. |
| Spline.ControlIndices | src/three/math/spline.h:33-42 | The four indices are ordered, lie in `[0, size - 1]`, and are the clamped predecessor, start, next and one after. |
| Spline.GetPoint | src/three/math/spline.h:29-61 | A zero weight lands exactly on the segment's start point. |
| Spline.GetPointAtControlPoint | src/three/math/spline.h:29-61 | When `(size - 1) k` is a whole number `i`, `getPoint` returns `points[i]`. |
| Spline.GetPointConstant | src/three/math/spline.h:29-61 | A spline whose control points are all equal returns that point everywhere. |
| SceneGraph.New | src/three/core/object3d.h:27-104 | The node gets the counter's value as its id, and the counter is incremented. The defaults are visible, no shadows, frustum-culled, clean and childless. The position is zero, the rotation is the identity quaternion, both matrices are the identity, and the layer mask is the default one. A new node traverses to itself. |
| SceneGraph.NewMatrixMatchesTransform | src/three/core/object3d.h:27-104 | A new node's stored matrix is the one its position, rotation and scale compose to. |
| SceneGraph.NewIdsDistinct | src/three/core/object3d.h:27-104 | Two nodes created in turn get increasing ids. |
| SceneGraph.UpdateMatrix | src/three/core/object3d.h:455-461 | `matrix` becomes `compose(position, quaternion, scale)` and the world matrix is marked for update. No other field changes. |
| SceneGraph.UpdateMatrixIdempotent | src/three/core/object3d.h:455-461 | A second `updateMatrix` changes nothing. |
| SceneGraph.UpdateMatrixWorld | src/three/core/object3d.h:463-493 | Only the matrices and the update flags change. The tree shape and the transforms are kept. |
| SceneGraph.UpdatedNodeWorld | src/three/core/object3d.h:467-479 | A node that recomputes gets `world = parent world · matrix` (just `matrix` at the root), and its flag is cleared. |
| SceneGraph.UpdatedRootWorld | src/three/core/object3d.h:467-471 | An updated root gets `matrixWorld == matrix`. |
| SceneGraph.IdleNodeKeepsWorld | src/three/core/object3d.h:467-493 | A clean, unforced, non-auto node keeps its matrices but still updates its children. |
| SceneGraph.RecomputedSubtreeConsistent | src/three/core/object3d.h:463-493 | Once a node recomputes, every descendant does too, and each world matrix is the parent's world times the local matrix. |
| SceneGraph.AutoWorldIsProduct | src/three/core/object3d.h:463-493 | With `matrixAutoUpdate` on everywhere, every node's world matrix is the product of the local matrices along its root path. |
| SceneGraph.AutoWorldIsProductFrom | src/three/core/object3d.h:463-493 | The same holds below any chain of ancestors: each world matrix is the ancestors' product times the local matrices. |
| SceneGraph.Traverse | src/three/core/object3d.h:411-423 | The traversal starts at the node and has one entry per node of the subtree. |
| SceneGraph.TraverseAllAppend | src/three/core/object3d.h:411-423 | Traversing the children of `a + b` is the traversal of `a` followed by that of `b`, and the node counts add up. |
| SceneGraph.TraversePreorder | src/three/core/object3d.h:411-423 | Child `i`'s subtree appears as one contiguous block, after the node and the earlier children's subtrees. |
| SceneGraph.TraverseVisible | src/three/core/object3d.h:425-439 | Only visible nodes are visited. |
| SceneGraph.TraverseVisibleWithinTraverse | src/three/core/object3d.h:425-439 | The visible traversal is a sub-multiset of the full traversal. |
| SceneGraph.AllVisibleTraversesAll | src/three/core/object3d.h:425-439 | In an all-visible tree, both traversals agree. |
| SceneGraph.HiddenChildSkipped | src/three/core/object3d.h:425-439 | A hidden child's whole subtree is skipped, as if the child were removed. |
| SceneGraph.TraverseAncestors | src/three/core/object3d.h:441-453 | One entry per proper ancestor. |
| SceneGraph.AncestorsAreParentChain | src/three/core/object3d.h:441-453 | Entry `j` is the ancestor `j + 1` levels up: the parent first, the root last, and never the node itself. |
| SceneGraph.GetObjectByProperty | src/three/core/object3d.h:308-327 | A found node matches and is in the subtree. None means no node of the subtree matches. |
| SceneGraph.GetObjectByPropertyIsFirstInTraverse | src/three/core/object3d.h:308-327 | The found node is the first match in pre-order. |
| SceneGraph.FirstInChildren | src/three/core/object3d.h:308-327 | The search over the children finds a matching node of their subtrees, and None means there is none. |
| SceneGraph.GetObjectById | src/three/core/object3d.h:296-300 | A found node has the requested id. |
| SceneGraph.GetObjectByName | src/three/core/object3d.h:302-306 | A found node has the requested name. |

## Left out

- Square roots and trigonometry, which cannot be exact over `real`. This covers:
  - `length`, `distanceTo`, `angleTo`, `setLength`, `clampLength`, `normalize` of the vectors, and `Vector2::angle`/`rotateAround`;
  - Vector4 `setAxisAngle*`;
  - Matrix4 `makeRotationFromEuler`, `makeRotationX/Y/Z/Axis`, `makePerspective` (the tangent of the field of view), `lookAt`, `extractRotation`, `decompose`, `getMaxScaleOnAxis`;
  - all of `quaternion.cpp` and the interior of `slerp`;
  - `applyAxisAngle`, `applyEuler`, `transformDirection`, `setFromMatrixScale`;
  - Plane `setFromCoplanarPoints`;
  - Sphere `setFromPoints`, `distanceToPoint` and `applyMatrix4`;
  - Box `distanceToPoint`;
  - Line3 `distance`;
  - Ray `distanceToPoint`, `distanceSqToPoint`, `distanceSqToSegment`, `lookAt` and `applyMatrix4`;
  - Triangle `area` and `plane`.
- Where a normalisation is modelled, its length is an argument that the precondition ties to the squared length.
- Rounding and IEEE behaviour: `floor`, `ceil`, `round`, `roundToZero`, NaN, and the infinite inverse directions in `intersectBox`.
- `Ray::intersectSphere`: when the first hit `t0` is in front of the ray, control falls off the end of a non-void function, because the last test repeats `t0 < 0`.
- `Ray::isIntersectionSphere` and `Ray::intersectsSphere`: they return `distanceToPoint(center) <= radius`, and that distance takes a square root.
- Spline `getLength` and `reparametrizeByArcLength`: they index an empty `QVector` and divide integers.
- `degToRad`, `radToDeg`, `random`, `random16`, `randFloat`, `randFloatSpread`, `nearestPowerOfTwo` and `generateUUID`: floating-point constants, randomness, logarithms and `QUuid`.
  - `SceneGraph.New` takes the uuid as a parameter.
- `Object3D` outside the transform tree:
  - the rotation setters, `rotateOn*`, `translateOn*`, `localToWorld`, `worldToLocal`, `lookAt`, `applyMatrix`, `getWorld*`, `toJSON`, `clone` and `copy`;
  - the `rotation` field and its link to `quaternion`.
  - `add` and `remove` are commented out in the source, so trees are built directly.
  - The `qint64` id counter is an unbounded `int`.
- `modelViewMatrix` and `normalMatrix` are fields that the transform tree never writes.
- Array plumbing: `applyToVector3Array`, `multiplyToArray` and `flattenToArrayOffset`.
- `clone` of every value type is the value itself.
- Quat.Slerp: returns `None` for every `t` other than 0 and 1, except when the two rotations are the same. The interior needs `acos` and `sin`.
- Quat.Inverse: for a non-zero quaternion it is only stated through `InverseOfUnit`, because it divides by a square root.
- Sphere.ClampPoint: the outside branch is stated only for the squared distance to the surface.
- Spline.GetPoint: requires at least one control point, which the source does not check. The interpolated value between control points is stated through the `Interpolate*` lemmas, not in `GetPoint`'s own contract.
- Line3.ClosestPointToPointParameter: requires `start != end`. The source divides by the squared length, which is zero otherwise.
- Box3.GetParameter and Box2.GetParameter: require every axis to have non-zero extent. The source divides by the extent unchecked, and a comment beside it notes the division by zero.
- Plane.ApplyMatrix4KeepsDistances: says nothing when the upper-left block is singular. Then `getInverse` falls back to the identity, and the model's `GetNormalMatrix` does the same.
- LayerMask.Set: channels are `0 <= c < 32`. Channel 31 sets the sign bit of the C++ `int`, which the bit pattern models.
- Ray.IntersectBox: requires every direction component to be non-zero, because the source divides by them and relies on IEEE infinities. Ray.IntersectsBox, Ray.IntersectBoxCorrected and the slab lemmas share that precondition.
- Frustum.SetFromMatrix: takes the six normal lengths as an argument `lens`, each the positive square root of the plane's squared normal length.
- Plane.Normalize: takes the normal's length as an argument `len > 0`. A zero normal divides by zero in the source.
- Triangle.Normal: takes the cross product's length as an argument `len`.
- Projection.MakeFrustum and Projection.MakeOrthographic: require `right != left`, `top != bottom` and `far != near`. The source divides by these extents without checking them. Projection.FrustumMapsNearCorners and Projection.FrustumMapsFarCorners also need `near != 0`, and the far corners need `far != 0`, for the homogeneous `w` to be non-zero.
- Frustum: the plane array is a sequence that every member assumes has six elements. The source's `set` writes `planes[0..5]` unchecked, and `containsPoint` carries a TODO to assert the length (src/three/math/frustum.h:129).
- SceneGraph.New: `scale` is a `double` member the constructor never initialises. The model chooses `(1, 1, 1)`, the value in the commented-out three.js line at src/three/core/object3d.h:43.
- MathUtil.EuclideanModulo: works on unbounded integers. It does not model the overflow of `(n % m) + m` near the largest `int`.
- Ray.DistanceToPlane: the `qDebug` message on the parallel, off-plane path is dropped.

## Findings

| source | as written | input that shows it | evidently intended | confidence | as-written member | corrected member |
|---|---|---|---|---|---|---|
| src/three/math/matrix3.h:17-25 | The nine-argument constructor copies `n11, n12, …` straight into the column-major `elements`, so it builds the transpose of `set(n11, …)`. | `Matrix3(0,1,0, 0,0,0, 0,0,0)` has its 1 at row 1, column 0, while `set` with the same arguments puts it at row 0, column 1. | The constructor agrees with `Matrix3::set` (src/three/math/matrix3.h:27-38), which takes its arguments row by row. | medium, not executed | Mat3.ConstructAsWritten, Mat3.ConstructorDisagreesWithSet | Mat3.Construct |
| src/three/math/box3.h:250-294 | `intersectsPlane` tests `min <= constant <= max` for `normal · x`, but a plane holds the points with `normal · x + constant == 0`. | The box `[4,6]×[-1,1]×[-1,1]` and the plane `x - 5 = 0` (normal `(1,0,0)`, constant `-5`). The box contains `(5,0,0)` on the plane, yet the test is false. | Compare against `-constant`, as three.js does. | high, not executed | Box3.IntersectsPlane, Box3.IntersectsPlaneSignCounterexample | Box3.IntersectsPlaneCorrected |
| src/three/math/sphere.h:107-119 | `intersectsPlane` tests `abs(center · normal - constant) <= radius`, the opposite sign to `distanceToPoint`. | The unit sphere at `(5,0,0)` and the plane `x - 5 = 0`. The center lies on the plane, yet the test is false. | `abs(distanceToPoint(center)) <= radius`. | high, not executed | Sphere.IntersectsPlane, Sphere.IntersectsPlaneSignCounterexample | Sphere.IntersectsPlaneCorrected |
| src/three/math/triangle.h:133-138 | `midpoint` scales by `1 / 3`, which is integer division and gives 0. | For the vertices `(3,0,0)`, `(0,3,0)` and `(0,0,3)` the result is the origin, not `(1,1,1)`. | Scale by `1.0 / 3`, giving the centroid. | high, not executed | Triangle.MidpointAsWritten, Triangle.MidpointCounterexample | Triangle.Midpoint |
| src/three/math/ray.h:357-436 | Every return of `intersectBox` passes `false` as the flag, so `intersectsBox` is always false. | The ray from `(-5,-5,-5)` along `(1,1,1)` reaches the center of the cube `[-1,1]³` at `t = 5`, yet `intersectsBox` is false. | The flag reports that the slab test found a non-negative parameter. | high, not executed | Ray.IntersectsBox, Ray.IntersectsBoxMissesEveryHit, Ray.CubeRayCounterexample | Ray.IntersectBoxCorrected |

The model keeps the as-written behaviour wherever the rest of the library depends on it.
`Plane::intersectsBox` delegates to `Box3::intersectsPlane` as written, so `PlaneBox.IntersectsBox`
does the same. The corrected members stand beside the faithful ones, each with its intended
property proved: `Box3.IntersectsPlaneCorrectedIffBothSides`, `Sphere.IntersectsPlaneCorrected` (through `Sphere.CenterWithinRadiusIffMeets`),
`Triangle.MidpointIsInside` and `Ray.IntersectsBoxCorrectedIff`.
