# pi-engine-math numeric kernel, in Dafny

This project models the fixed-shape numeric kernel of PiSkyEngine's
pi-engine-math. It covers five parts:

- **The precision cast policy.** Every `precisionCastTo{Int,Long,Float,Double}` overload returns a value unchanged when the target primitive holds it exactly. Otherwise it substitutes `MIN_VALUE` or `MAX_VALUE` by sign. `precisionCastToLong(float)` is the exception: it is a plain Java narrowing. The four `Number` dispatchers are modelled too.
- **Matrix storage.** This covers the 1×2, 1×3, 3×3 and 4×4 shapes, the shape derived from the backing array's length, flat `at(index)`, and the bounds-checked, row-major row accessors.
- **The coordinate readings.** The derived `d`, `i`, `j` and `n` accessors go through the float accessor.
- **The 4×4 operations.** These are `multiply`, the translation, rotation and scaling builders, and Gauss–Jordan `invert` without row exchanges. The `Matrix4f`/`Matrix4d` instance helpers are built on them.
- **The 3-D vector and point operations.** These are `Vector3D`, `VectorOperations` and `Cartesian3D`.

Java `float` and `double` values are exact `real`s. Whether a real is a binary32 or binary64 value is computed exactly: it must lie on the format's grid with a significand below 2^24 (2^53), as in section 3.3 of IEEE 754-2008. Powers of two as large as 2^1074 stay symbolic exponents.

The float and double variants of an operation are one function with a `RealKind` tag. The tag is the precision of the record the variant returns. Failures are values:

- `Result` with a `Fault` for the exceptions (`IndexOutOfBounds`, `UnexpectedBackingArray`, `UnknownShape`, `ZeroVector`);
- `Option` for the `null` that `invert` returns.

The host's `Math.sqrt`, `Math.acos`, `Math.cos` and `Math.sin` are parameters. Properties that need a square root assume `IsSqrt(sqrt)`: on a non-negative argument the result is non-negative and squares back to the argument.

Modules, in dependency order:

| file | module | what it holds |
|---|---|---|
| wrappers.dfy | Wrappers | `Option`, `Result`, `Fault` |
| numeric.dfy | Numeric | Java ranges, `MIN_VALUE`/`MAX_VALUE` constants, the binary32/binary64 grids, `Sq`, `IsSqrt` |
| precision.dfy | Precision | the cast overloads, the `Number` dispatchers, the policy lemmas |
| coordinates.dfy | Coordinates | column offsets and the five readings of a stored coordinate |
| matrix.dfy | Matrix | shapes, storage, `at`, `rows`/`cols`, row accessors |
| matrix_operations.dfy | MatrixOperations | product, builders, their algebra |
| inversion.dfy | Inversion | Gauss–Jordan inversion, its correctness, the loops as written |
| matrix4.dfy | Matrix4Transforms | `Matrix4f`/`Matrix4d` instance operations |
| vector3d.dfy | Vectors | `Vector3f`/`Vector3d` and the `Vector3D` defaults |
| vector_operations.dfy | VectorOperations | `angle`, `project`, `reflect` |
| cartesian3d.dfy | Cartesian | `Cartesian3D` defaults, over the same Matrix1x3 record as `Vector3D` |

Several types the code relies on are not part of this model, and each is taken to behave like the file of the same name that is:

- `XYZValues` and `XYZWIndexValues` (`Matrix1x3` and `Matrix4` extend them) behave like `XYZWValues` and `XYZIndexValues`;
- the `org.piengine.commons.math.Matrix` family, which `MatrixOperations` and `Cartesian3D` import, is the `org.piengine.math.Matrix` family;
- `org.piengine.math.Precision`, which `XYZIndexValues` extends, is `org.piengine.commons.math.Precision`;
- `org.piengine.math.MatrixOperations`, which the `Matrix4` records call, is `org.piengine.commons.math.MatrixOperations`;
- `Coordinate`, which `Vector3D` and `Cartesian3D` extend, only declares the `dimension()` and `isValid()` they implement.

Readings follow the records' overrides: a float-stored element reads through xd and xf as itself. A double-stored element reads through xd as the stored double, and through xf as that double cast by the precision policy. The int, long and Number readings always cast the float reading.

## Model

| member | source | states |
|---|---|---|
| Precision.LongToInt | src/main/java/org/piengine/commons/math/Precision.java:301-306 | the long comes back unchanged exactly when it is in the int range; otherwise the result is `Integer.MIN_VALUE` for a negative input and `Integer.MAX_VALUE` for a positive one |
| Precision.RealToInt | src/main/java/org/piengine/commons/math/Precision.java:265-283 | the result equals the input exactly when the input is a whole number in the int range; otherwise it is `Integer.MIN_VALUE` for a negative input and `Integer.MAX_VALUE` otherwise, so 2.5 gives `Integer.MAX_VALUE` |
| Precision.RealToLong | src/main/java/org/piengine/commons/math/Precision.java:314-319 | double to long equals the input exactly when it is a whole number in the long range; otherwise it is `Long.MIN_VALUE` for a negative input and `Long.MAX_VALUE` otherwise |
| Precision.FloatToLong | src/main/java/org/piengine/commons/math/Precision.java:327-329 | narrowing, not the policy: exact on long values; the truncation toward zero when that is in range, within 1 of the input; `Long.MAX_VALUE` above the long range and `Long.MIN_VALUE` below it; never larger in magnitude and never of the opposite sign |
| Precision.FloatToLongMonotone | src/main/java/org/piengine/commons/math/Precision.java:327-329 | the narrowing never reverses the order of two floats |
| Precision.IntegralToFloat | src/main/java/org/piengine/commons/math/Precision.java:239-257 | int/long to float is always a binary32 value. It equals the input exactly when the input is binary32. Otherwise it is `Float.MIN_VALUE` for a negative input and `Float.MAX_VALUE` for a positive one |
| Precision.LongToDouble | src/main/java/org/piengine/commons/math/Precision.java:143-148 | long to double is binary64 and exact exactly when the input is binary64. Otherwise it is `Double.MIN_VALUE` for a negative input and `Double.MAX_VALUE` for a positive one |
| Precision.DoubleToFloat | src/main/java/org/piengine/commons/math/Precision.java:216-221 | double to float is binary32 and exact exactly on binary32 inputs. Otherwise it is `Float.MIN_VALUE` for a negative input and `Float.MAX_VALUE` for a positive one |
| Precision.CastToInt | src/main/java/org/piengine/commons/math/Precision.java:265-306 | an int argument is returned unchanged |
| Precision.CastToLong | src/main/java/org/piengine/commons/math/Precision.java:314-349 | int and long arguments are returned unchanged |
| Precision.CastToFloat | src/main/java/org/piengine/commons/math/Precision.java:216-257 | a well-formed argument always yields a binary32 value |
| Precision.CastToDouble | src/main/java/org/piengine/commons/math/Precision.java:113-148 | a well-formed argument always yields a binary64 value; every argument but a long comes back unchanged |
| Precision.Cast | src/main/java/org/piengine/commons/math/Precision.java:113-349 | the overload selected by the target kind yields a well-formed value of that kind |
| Precision.NumberToInt | src/main/java/org/piengine/commons/math/Precision.java:156-163 | a boxed primitive goes to its overload; any other `Number` goes to `intValue()` |
| Precision.NumberToLong | src/main/java/org/piengine/commons/math/Precision.java:171-178 | the same dispatch to `precisionCastToLong` or `longValue()` |
| Precision.NumberToFloat | src/main/java/org/piengine/commons/math/Precision.java:186-193 | the same dispatch to `precisionCastToFloat` or `floatValue()` |
| Precision.NumberToDouble | src/main/java/org/piengine/commons/math/Precision.java:201-208 | the same dispatch to `precisionCastToDouble` or `doubleValue()` |
| Precision.CastPolicy | src/main/java/org/piengine/commons/math/Precision.java:113-349 | every overload except float to long keeps a value the target holds and otherwise returns the sign's saturation constant |
| Precision.ToIntPolicy | src/main/java/org/piengine/commons/math/Precision.java:265-306 | the int overloads keep every value int holds and give `MIN_VALUE`/`MAX_VALUE` by sign for every other |
| Precision.ToLongPolicy | src/main/java/org/piengine/commons/math/Precision.java:314-349 | the double, int and long overloads to long keep every value long holds and saturate by sign otherwise |
| Precision.ToFloatPolicy | src/main/java/org/piengine/commons/math/Precision.java:216-257 | the float overloads keep every binary32 value and give `Float.MIN_VALUE`/`Float.MAX_VALUE` by sign for every other |
| Precision.ToDoublePolicy | src/main/java/org/piengine/commons/math/Precision.java:113-148 | the double overloads keep every binary64 value and give `Double.MIN_VALUE`/`Double.MAX_VALUE` by sign for every other |
| Numeric.FitsSignificandIff | src/main/java/org/piengine/commons/math/Precision.java:239-257 | the odd-part test used for the integer casts agrees with the format's definition: n is m·2^e with \|m\| below the significand bound |
| Numeric.Int64OnFloatGrid | src/main/java/org/piengine/commons/math/Precision.java:239-257 | an int or long is a float value exactly when its odd part is below 2^24 |
| Numeric.Int64OnDoubleGrid | src/main/java/org/piengine/commons/math/Precision.java:143-148 | a long is a double value exactly when its odd part is below 2^53 |
| Precision.CastSameKind | src/main/java/org/piengine/commons/math/Precision.java:113-349 | a cast to a value's own kind is the identity |
| Precision.CastIdempotent | src/main/java/org/piengine/commons/math/Precision.java:113-349 | casting twice to one kind is casting once |
| Precision.CastRoundTrip | src/main/java/org/piengine/commons/math/Precision.java:113-349 | a value the target holds survives the cast there and back |
| Precision.CastExact | src/main/java/org/piengine/commons/math/Precision.java:113-349 | a value the target holds keeps its mathematical value |
| Precision.FloatAndDoubleToLongDiffer | src/main/java/org/piengine/commons/math/Precision.java:314-329 | 2.5 casts to long as 2 from float but as `Long.MAX_VALUE` from double |
| Precision.FirstInexactInt | src/main/java/org/piengine/commons/math/Precision.java:239-244 | 16777216 casts to float exactly; 16777217 gives `Float.MAX_VALUE` |
| Precision.TenthSaturates | src/main/java/org/piengine/commons/math/Precision.java:216-221 | the double 0.1 is not binary32: it casts to `Float.MAX_VALUE`, and to int as `Integer.MAX_VALUE` |
| Precision.TenthOnGrids | src/main/java/org/piengine/commons/math/Precision.java:216-221 | 0.1 as Java rounds it to double is a binary64 value but not a binary32 value |
| Precision.TwoAndAHalfIsFloat | src/main/java/org/piengine/commons/math/Precision.java:327-329 | 2.5 is a binary32 value, so the float overload receives it unchanged |
| Precision.TwoAndAHalfIsDouble | src/main/java/org/piengine/commons/math/Precision.java:314-319 | 2.5 is a binary64 value, so the double overload receives it unchanged |
| Precision.NegativeSaturatesPositive | src/main/java/org/piengine/commons/math/Precision.java:216-257 | a negative value float cannot hold casts to float as the positive `Float.MIN_VALUE` |
| Coordinates.FromFloat | src/main/java/org/piengine/math/coordinates/XYZIndexValues.java:62-102 | the d reading widens the float reading exactly. The i reading is exact exactly when int holds the value, and otherwise is `Integer.MIN_VALUE` below zero and `Integer.MAX_VALUE` elsewhere. The j reading is the float-to-long narrowing: the value truncated toward zero, clamped to `Long.MIN_VALUE` and `Long.MAX_VALUE`. The n reading is the boxed float, which casts back to the same i, j, f and d. `XYZWValues` derives its row-less readings the same way |
| Coordinates.Read | src/main/java/org/piengine/math/Matrix.java:351-399 | a double-stored element reads as itself through d. Through f it reads as a binary32 value: itself when it is binary32, otherwise `Float.MAX_VALUE`, or `Float.MIN_VALUE` for a negative value. A float-stored element reads the same through d and f |
| Coordinates.DoubleStoredIntReadsSaturated | src/main/java/org/piengine/math/coordinates/XYZIndexValues.java:80-82 | the whole number 2^24 + 1 stored as a double reads as `Integer.MAX_VALUE`, because xi goes through the float reading |
| Coordinates.SaturatedDoubleReading | src/main/java/org/piengine/math/coordinates/XYZIndexValues.java:80-82 | a positive double-stored value float cannot hold reads as `Float.MAX_VALUE` through xf and `Integer.MAX_VALUE` through xi |
| Coordinates.WideIntReadsSaturated | src/main/java/org/piengine/math/coordinates/XYZIndexValues.java:80-82 | every positive long whose odd part needs more than 24 bits, stored as a double, reads as `Integer.MAX_VALUE` through xi |
| Coordinates.IntReading | src/main/java/org/piengine/math/coordinates/XYZIndexValues.java:74-102 | for either storage precision, xi is the policy int cast of xf, xj is the float-to-long narrowing of xf, and xn is xf boxed |
| Coordinates.IntReadingCases | src/main/java/org/piengine/commons/math/coordinates/XYZWValues.java:88-90 | xi() is the stored coordinate or one of the int saturation constants |
| Matrix.At | src/main/java/org/piengine/math/Matrix.java:1156-1164 | `at(index)` succeeds exactly for a primitive array and an index inside it. It boxes the element stored at that index, in the array's own kind, for int, long, float and double arrays alike. An index outside a primitive array gives the index fault; any other array gives the backing-array fault |
| Matrix.ColsOf | src/main/java/org/piengine/math/Matrix.java:1171-1178 | `cols()` is defined exactly for lengths 2, 3, 4, 9 and 16, and otherwise is the unknown-shape fault. Up to four elements it is the length itself, one row of that many columns; for 9 and 16 it is the square root |
| Matrix.RowsOf | src/main/java/org/piengine/math/Matrix.java:1185-1192 | `rows()` is defined for the same lengths, with the same fault. Up to four elements it is 1; for 9 and 16 it is the square root |
| Matrix.ShapeOfLength | src/main/java/org/piengine/math/Matrix.java:1171-1201 | for every accepted length, rows × cols is the length (`size()`), rows ≤ cols, and the matrix is a single row or square |
| Matrix.FourIsOneRow | src/main/java/org/piengine/math/Matrix.java:1171-1192 | four elements are one row of four columns, not a 2×2 matrix |
| Matrix.DefaultsAgreeWithShape | src/main/java/org/piengine/math/Matrix.java:1109-1139 | for every shape, the length-derived rows and cols agree with the ROWS and COLS constants |
| Matrix.Zero | src/main/java/org/piengine/math/Matrix.java:547-549 | the no-argument constructors give SIZE zero elements of the record's kind |
| Matrix.Element | src/main/java/org/piengine/math/Matrix.java:557-582 | a row accessor succeeds exactly for 0 ≤ row < ROWS; otherwise it is the index fault |
| Matrix.RowMajorIndex | src/main/java/org/piengine/math/Matrix.java:840-876 | row × COLS + offset lies below SIZE for every accepted row and offset |
| Matrix.RowMajorCovers | src/main/java/org/piengine/math/Matrix.java:840-876 | every storage index is row × COLS + offset for exactly one row and offset |
| Matrix.ReadAt | src/main/java/org/piengine/math/Matrix.java:630-706 | the typed row accessors read the element at row × COLS + offset; a float matrix reads the same through d and f |
| Matrix.ReadAtInRange | src/main/java/org/piengine/math/Matrix.java:630-706 | an in-range row accessor reads the element stored at row × COLS + offset, in the record's precision |
| Matrix.StoredAsDouble | src/main/java/org/piengine/math/Matrix.java:1156-1164 | `at(index)` of a float or double record, read as a double, is the element stored at that index |
| Matrix.AtAgreesWithReadAt | src/main/java/org/piengine/math/Matrix.java:1156-1164 | `at(row × COLS + offset)` and the row accessor's d reading name the same element |
| Matrix.Matrix3dTenth | src/main/java/org/piengine/math/Matrix.java:661-706 | a Matrix3d of 0.1 reads 0.1 through xd, `Float.MAX_VALUE` through xf and `Integer.MAX_VALUE` through xi |
| Matrix.Matrix3fTwoAndAHalf | src/main/java/org/piengine/math/coordinates/XYZIndexValues.java:80-92 | a Matrix3f of 2.5 reads 2 through zj but `Integer.MAX_VALUE` through zi |
| MatrixOperations.Identity | src/main/java/org/piengine/commons/math/MatrixOperations.java:390-393 | the "1 where index % 5 == 0" array is the 4×4 identity |
| MatrixOperations.MultiplyElements | src/main/java/org/piengine/commons/math/MatrixOperations.java:68-80 | the triple loop leaves each element i·4+j equal to row i times column j |
| MatrixOperations.Multiply | src/main/java/org/piengine/commons/math/MatrixOperations.java:47-91 | multiplyf and multiplyd give a Matrix4 of their own precision whose element (i, j) is row i of a times column j of b |
| MatrixOperations.IdentityNeutral | src/main/java/org/piengine/commons/math/MatrixOperations.java:68-80 | multiplying by the identity on either side changes nothing |
| MatrixOperations.ProductAssociative | src/main/java/org/piengine/commons/math/MatrixOperations.java:68-80 | the product is associative |
| MatrixOperations.Translation | src/main/java/org/piengine/commons/math/MatrixOperations.java:101-139 | translation(x, y, z), in the requested precision, takes every point (x′, y′, z′, w) to (x′ + x·w, y′ + y·w, z′ + z·w, w): points move by the offset, directions stay |
| MatrixOperations.TranslationMovesPoints | src/main/java/org/piengine/commons/math/MatrixOperations.java:101-139 | it adds (x, y, z) to every point and leaves directions (w = 0) alone |
| MatrixOperations.TranslationsCompose | src/main/java/org/piengine/commons/math/MatrixOperations.java:101-139 | translation(a) · translation(b) = translation(a + b) |
| MatrixOperations.Scaling | src/main/java/org/piengine/commons/math/MatrixOperations.java:305-343 | scaling(x, y, z), in the requested precision, multiplies each coordinate of every point by its factor and keeps w |
| MatrixOperations.ScalingScalesPoints | src/main/java/org/piengine/commons/math/MatrixOperations.java:305-343 | it multiplies each coordinate of a point by its factor |
| MatrixOperations.TranslationMap | src/main/java/org/piengine/commons/math/MatrixOperations.java:101-139 | the translation literal moves every point by w times the offset |
| MatrixOperations.ScalingMap | src/main/java/org/piengine/commons/math/MatrixOperations.java:305-343 | the scaling literal multiplies x, y and z by their factors and keeps w |
| MatrixOperations.RotationXMap | src/main/java/org/piengine/commons/math/MatrixOperations.java:147-185 | the rotationX literal fixes x and w and turns the (y, z) plane |
| MatrixOperations.RotationYMap | src/main/java/org/piengine/commons/math/MatrixOperations.java:193-231 | the rotationY literal fixes y and w and turns the (z, x) plane |
| MatrixOperations.RotationZMap | src/main/java/org/piengine/commons/math/MatrixOperations.java:239-295 | the rotationZ literal fixes z and w and turns the (x, y) plane |
| MatrixOperations.ScalingsCompose | src/main/java/org/piengine/commons/math/MatrixOperations.java:305-343 | scaling(a) · scaling(b) = scaling of the componentwise product |
| MatrixOperations.RotationX | src/main/java/org/piengine/commons/math/MatrixOperations.java:147-185 | rotationX keeps x and w of every point and turns (y, z) to (cos·y − sin·z, sin·y + cos·z) |
| MatrixOperations.RotationY | src/main/java/org/piengine/commons/math/MatrixOperations.java:193-231 | rotationY keeps y and w of every point and turns (x, z) to (cos·x + sin·z, cos·z − sin·x) |
| MatrixOperations.RotationZ | src/main/java/org/piengine/commons/math/MatrixOperations.java:239-295 | rotationZ, rotationZj, rotationZf and rotationZd keep z and w of every point and turn (x, y) to (cos·x − sin·y, sin·x + cos·y) |
| MatrixOperations.RotationsTurnAxes | src/main/java/org/piengine/commons/math/MatrixOperations.java:147-295 | the images of all four basis vectors under each rotation: its own axis and w are fixed, the next axis goes to (cos, sin) and the one after to (−sin, cos) in the turned plane |
| MatrixOperations.RotationsCompose | src/main/java/org/piengine/commons/math/MatrixOperations.java:147-295 | two rotations about one axis compose by the angle-addition formulas |
| MatrixOperations.RotationsOrthogonal | src/main/java/org/piengine/commons/math/MatrixOperations.java:147-295 | with cos² + sin² = 1, each rotation times its transpose is the identity |
| Inversion.Invert | src/main/java/org/piengine/commons/math/MatrixOperations.java:387-415 | a result of the elimination is a two-sided inverse of the input |
| Inversion.PivotFromCorrect | src/main/java/org/piengine/commons/math/MatrixOperations.java:395-415 | from any state that tracks M0 (inv · M0 = mat, with an undo matrix taking inv back to the identity) and has its first i columns reduced, a result of the remaining pivot steps is a two-sided inverse of M0 |
| Inversion.EliminateTracks | src/main/java/org/piengine/commons/math/MatrixOperations.java:404-412 | clearing one column keeps inv · M0 = mat and an undo matrix for inv |
| Inversion.EliminateReduces | src/main/java/org/piengine/commons/math/MatrixOperations.java:404-412 | clearing one column after a unit pivot leaves that column cleared outside the pivot row and the earlier columns reduced |
| Inversion.SmallPivotRejected | src/main/java/org/piengine/commons/math/MatrixOperations.java:395-399 | a first element below 1e-10 in magnitude gives null |
| Inversion.ZeroRowRejected | src/main/java/org/piengine/commons/math/MatrixOperations.java:387-415 | a matrix with a zero row gives null |
| Inversion.NoRowExchange | src/main/java/org/piengine/commons/math/MatrixOperations.java:395-399 | the row swap is its own inverse, yet the inversion returns null for it |
| Inversion.InvertIdentity | src/main/java/org/piengine/commons/math/MatrixOperations.java:387-415 | the identity inverts to itself |
| Inversion.DiagonalPivots | src/main/java/org/piengine/commons/math/MatrixOperations.java:395-412 | a diagonal matrix whose pivots all pass the bound is inverted |
| Inversion.InvertScaling | src/main/java/org/piengine/commons/math/MatrixOperations.java:387-415 | scaling(x, y, z) with every factor at least 1e-10 in magnitude inverts to scaling(1/x, 1/y, 1/z) |
| Inversion.InvertScalingMatrix | src/main/java/org/piengine/commons/math/MatrixOperations.java:351-425 | the same for the Matrix4 records, in either precision |
| Inversion.InverseUnique | src/main/java/org/piengine/commons/math/MatrixOperations.java:387-415 | any right inverse is the matrix the inversion returns |
| Inversion.InvertInvolutive | src/main/java/org/piengine/commons/math/MatrixOperations.java:387-415 | inverting an inverse gives the input back |
| Inversion.InvertMatrix | src/main/java/org/piengine/commons/math/MatrixOperations.java:351-425 | invertf/invertd/invert return null exactly when the elimination fails; otherwise a Matrix4 of their precision that is a two-sided inverse |
| Inversion.InvertLoops | src/main/java/org/piengine/commons/math/MatrixOperations.java:387-415 | the loops as written, element by element, compute the elimination's result |
| Inversion.DivideRowLoop | src/main/java/org/piengine/commons/math/MatrixOperations.java:400-403 | the j loop divides the pivot row of both working arrays by the pivot |
| Inversion.SubtractRowLoop | src/main/java/org/piengine/commons/math/MatrixOperations.java:404-412 | the j loop subtracts factor times the pivot row from row k of both arrays |
| Matrix4Transforms.MultiplyBy | src/main/java/org/piengine/math/Matrix.java:767-777 | `multiply(other)` keeps the receiver's precision, with the receiver on the left |
| Matrix4Transforms.MultiplyByComposes | src/main/java/org/piengine/math/Matrix.java:931-941 | the product applies `other`'s transformation first, then the receiver's |
| Matrix4Transforms.ProductAppliesAfter | src/main/java/org/piengine/math/Matrix.java:931-941 | at every point, a product applies its right factor first and its left factor after it |
| Matrix4Transforms.ApplyProduct | src/main/java/org/piengine/commons/math/MatrixOperations.java:68-80 | applying a product applies its right factor first |
| Matrix4Transforms.Translate | src/main/java/org/piengine/math/Matrix.java:779-787 | `translate` keeps the receiver's precision, and at every point applies `translation(x, y, z)` first and the receiver after it; in particular it maps the origin where the receiver maps (x, y, z) |
| Matrix4Transforms.TranslateMovesPoints | src/main/java/org/piengine/math/Matrix.java:943-951 | the result moves every point by (x, y, z) before the receiver acts |
| Matrix4Transforms.Scale | src/main/java/org/piengine/math/Matrix.java:821-828 | `scale` keeps the precision, and at every point applies `scaling(x, y, z)` first and the receiver after it; (1, 1, 1) goes where the receiver maps (x, y, z) |
| Matrix4Transforms.ScaleScalesPoints | src/main/java/org/piengine/math/Matrix.java:985-992 | the result scales every point before the receiver acts |
| Matrix4Transforms.RotateX | src/main/java/org/piengine/math/Matrix.java:789-797 | `rotateX` keeps the precision, and at every point applies `rotationX(angle)` first and the receiver after it |
| Matrix4Transforms.RotateY | src/main/java/org/piengine/math/Matrix.java:799-807 | `rotateY` applies `rotationY(angle)` first at every point, then the receiver |
| Matrix4Transforms.RotateZ | src/main/java/org/piengine/math/Matrix.java:809-819 | `rotateZ` applies `rotationZ(angle)` first at every point, then the receiver |
| Matrix4Transforms.InvertSelf | src/main/java/org/piengine/math/Matrix.java:830-838 | `invert()` keeps the precision and gives a two-sided inverse, or null |
| Matrix4Transforms.TranslateTwice | src/main/java/org/piengine/math/Matrix.java:943-951 | two translates are one by the sum |
| Matrix4Transforms.NeutralTransforms | src/main/java/org/piengine/math/Matrix.java:943-992 | translate by zero and scale by one keep the elements |
| Matrix4Transforms.TranslateBack | src/main/java/org/piengine/math/Matrix.java:943-951 | translating by v and then by −v gives the elements back |
| Matrix4Transforms.TranslationsCancel | src/main/java/org/piengine/commons/math/MatrixOperations.java:101-139 | translation(v) · translation(−v) is the identity |
| Matrix4Transforms.MultiplyByInverse | src/main/java/org/piengine/math/Matrix.java:994-1002 | a record times its own `invert()` is the identity in the receiver's precision |
| Vectors.ReadAxis | src/main/java/org/piengine/math/Vector3D.java:217-259 | a vector's xd, yd and zd readings are its stored coordinates |
| Vectors.ReadAxisIsRow | src/main/java/org/piengine/math/Vector3D.java:217-259 | a vector's readings are those of row 0 of the Matrix1x3 it is |
| Vectors.XdIsReading | src/main/java/org/piengine/math/Vector3D.java:241-259 | `Xd`, the stored coordinate at the axis' column offset, is the d reading of that axis |
| Vectors.Dimension | src/main/java/org/piengine/math/Vector3D.java:328-330 | `dimension()` is the number of coordinates and the matrix's column count |
| Vectors.OfDouble | src/main/java/org/piengine/math/Vector3D.java:287-289 | `ofDouble` builds a Vector3d that reads back its arguments through xd |
| Vectors.OfFloat | src/main/java/org/piengine/math/Vector3D.java:299-301 | `ofFloat` builds a Vector3f that reads back its float arguments through xf |
| Vectors.ArgumentAs | src/main/java/org/piengine/math/Vector3D.java:107-117 | a Vector3f reads its argument through xf. This changes the argument exactly when the argument is a Vector3d with a coordinate float cannot hold |
| Vectors.ExactArgument | src/main/java/org/piengine/math/Vector3D.java:185-195 | a Vector3d receiver, or a Vector3f argument, is read exactly |
| Vectors.Add | src/main/java/org/piengine/math/Vector3D.java:107-109 | `add` keeps the receiver's kind; on an exactly read argument it is componentwise |
| Vectors.Subtract | src/main/java/org/piengine/math/Vector3D.java:115-117 | `subtract` keeps the receiver's kind; on an exactly read argument it is componentwise |
| Vectors.AddThenSubtract | src/main/java/org/piengine/math/Vector3D.java:185-195 | `a.add(b).subtract(b)` and `a.subtract(b).add(b)` give a back, for either kind of argument |
| Vectors.SubtractSelf | src/main/java/org/piengine/math/Vector3D.java:193-195 | `a.subtract(a)` is the zero vector of a's kind |
| Vectors.FloatPlusDoubleTenth | src/main/java/org/piengine/math/Vector3D.java:107-109 | a zero Vector3f plus a Vector3d of 0.1s has `Float.MAX_VALUE` coordinates |
| Vectors.Scale | src/main/java/org/piengine/math/Vector3D.java:123-125 | `scale` keeps the kind; the result is zero exactly when the factor or the vector is zero |
| Vectors.ScaleByOne | src/main/java/org/piengine/math/Vector3D.java:201-203 | scaling by one changes nothing |
| Vectors.ScaleTwice | src/main/java/org/piengine/math/Vector3D.java:201-203 | scaling by a and then b is scaling by a·b |
| Vectors.DotOfReadings | src/main/java/org/piengine/math/Vector3D.java:338-340 | `dot` is xd·xd′ + yd·yd′ + zd·zd′, summed over the stored coordinates that `XdIsReading` identifies as the d readings |
| Vectors.DotSymmetric | src/main/java/org/piengine/math/Vector3D.java:338-340 | `dot` is symmetric |
| Vectors.DotSelf | src/main/java/org/piengine/math/Vector3D.java:338-340 | `a.dot(a)` is non-negative, and zero exactly for the zero vector |
| Vectors.DotScale | src/main/java/org/piengine/math/Vector3D.java:338-340 | `dot` is linear in either argument under `scale` |
| Vectors.Cross | src/main/java/org/piengine/math/Vector3D.java:317-322 | `cross` is always a Vector3d, is perpendicular to both arguments, and is right-handed: the determinant of (a, b, a × b) is \|a × b\|² |
| Vectors.CrossSelf | src/main/java/org/piengine/math/Vector3D.java:317-322 | a × a is zero |
| Vectors.CrossAntiCommutes | src/main/java/org/piengine/math/Vector3D.java:317-322 | a × b = −(b × a) |
| Vectors.Lagrange | src/main/java/org/piengine/math/Vector3D.java:317-340 | \|a\|²\|b\|² = (a·b)² + \|a × b\|² |
| Vectors.TripleProduct | src/main/java/org/piengine/math/Vector3D.java:317-322 | for every w, w · (a × b) is the determinant of the rows a, b, w, so the product is the right-handed one |
| Vectors.CrossOfAxes | src/main/java/org/piengine/math/Vector3D.java:317-322 | x × y = z, y × z = x and z × x = y |
| Vectors.Magnitude | src/main/java/org/piengine/math/Vector3D.java:356-361 | `magnitude` is non-negative, squares to `a.dot(a)`, and is zero exactly for the zero vector |
| Vectors.Normalize | src/main/java/org/piengine/math/Vector3D.java:173-179 | `normalize` fails exactly on the zero vector. Otherwise it keeps the kind, and scaling the result by the magnitude gives the vector back |
| Vectors.NormalizeUnit | src/main/java/org/piengine/math/Vector3D.java:95-101 | a normalized vector has unit length |
| Vectors.ToPoint | src/main/java/org/piengine/math/Vector3D.java:131-133 | `toPoint` keeps the kind and coordinates |
| Vectors.FromPoint | src/main/java/org/piengine/math/Vector3D.java:269-277 | `fromPoint` gives a Vector3f exactly for a Point3f; any other point is read through xd/yd/zd |
| Vectors.PointRoundTrip | src/main/java/org/piengine/math/Vector3D.java:269-277 | `fromPoint(v.toPoint())` is v, kind included |
| Vectors.PointRoundTripBack | src/main/java/org/piengine/math/Vector3D.java:209-211 | `fromPoint(p).toPoint()` is p for a Point3f or Point3d |
| VectorOperations.Cosine | src/main/java/org/piengine/math/VectorOperations.java:43-49 | the quotient passed to acos, times \|a\|\|b\|, is a·b |
| VectorOperations.Angle | src/main/java/org/piengine/math/VectorOperations.java:43-50 | `angle` fails exactly when either vector is zero; otherwise it is acos of the cosine c with c·\|a\|\|b\| = a·b |
| VectorOperations.CauchySchwarz | src/main/java/org/piengine/math/VectorOperations.java:43-49 | \|a·b\| ≤ \|a\|\|b\| |
| VectorOperations.CosineInRange | src/main/java/org/piengine/math/VectorOperations.java:43-49 | for non-zero vectors the acos argument lies in [−1, 1] |
| VectorOperations.AngleSelf | src/main/java/org/piengine/math/VectorOperations.java:43-50 | the angle of a non-zero vector with itself is acos(1) |
| VectorOperations.AngleSymmetric | src/main/java/org/piengine/math/VectorOperations.java:43-50 | the angle from a to b is the angle from b to a, failure included |
| VectorOperations.Project | src/main/java/org/piengine/math/VectorOperations.java:59-66 | `project` fails exactly when b is zero. Otherwise the result has b's kind, is b scaled by (a·b)/(b·b), and has the same dot with b as a has |
| VectorOperations.ProjectOntoSelf | src/main/java/org/piengine/math/VectorOperations.java:64-65 | `project(b, b)` is b |
| VectorOperations.ProjectIdempotent | src/main/java/org/piengine/math/VectorOperations.java:59-66 | projecting a projection again changes nothing |
| VectorOperations.ProjectPerpendicular | src/main/java/org/piengine/math/VectorOperations.java:64-65 | a vector perpendicular to b projects to zero of b's kind |
| VectorOperations.Reflect | src/main/java/org/piengine/math/VectorOperations.java:75-79 | `reflect` fails exactly when n is zero; otherwise the result has a's kind |
| VectorOperations.ReflectIsMirror | src/main/java/org/piengine/math/VectorOperations.java:75-79 | on exactly read arguments, `reflect` is a − 2(a·u)u for the unit normal u |
| VectorOperations.MirrorFlips | src/main/java/org/piengine/math/VectorOperations.java:76-78 | the mirror reverses the component along a unit normal |
| VectorOperations.MirrorInvolution | src/main/java/org/piengine/math/VectorOperations.java:76-78 | mirroring twice gives the vector back |
| VectorOperations.MirrorKeepsLength | src/main/java/org/piengine/math/VectorOperations.java:76-78 | the mirror keeps the length |
| VectorOperations.ReflectPerpendicular | src/main/java/org/piengine/math/VectorOperations.java:77-78 | a vector perpendicular to n is reflected to itself |
| VectorOperations.ReflectFlipsNormal | src/main/java/org/piengine/math/VectorOperations.java:75-79 | reflecting reverses the component along the normal |
| VectorOperations.ReflectInvolution | src/main/java/org/piengine/math/VectorOperations.java:75-79 | `reflect(reflect(a, n), n)` is a |
| VectorOperations.ReflectKeepsLength | src/main/java/org/piengine/math/VectorOperations.java:75-79 | reflecting keeps the length |
| VectorOperations.ReflectNormal | src/main/java/org/piengine/math/VectorOperations.java:75-79 | `reflect(n, n)` is −n |
| Cartesian.Dimension | src/main/java/org/piengine/commons/math/coordinates/Cartesian3D.java:55-57 | `dimension()` is the number of coordinates and the Matrix1x3's column count |
| Cartesian.DistanceTo | src/main/java/org/piengine/commons/math/coordinates/Cartesian3D.java:65-70 | `distanceTo` is non-negative, and its square is the sum of the squared differences of the stored coordinates |
| Cartesian.DistanceSymmetric | src/main/java/org/piengine/commons/math/coordinates/Cartesian3D.java:65-70 | the distance from p to q is the distance from q to p |
| Cartesian.DistanceZero | src/main/java/org/piengine/commons/math/coordinates/Cartesian3D.java:65-70 | the distance is zero exactly between points with equal coordinates |
| Cartesian.DistanceToSelf | src/main/java/org/piengine/commons/math/coordinates/Cartesian3D.java:65-70 | a point is at distance zero from itself |
| Cartesian.DistanceIsMagnitude | src/main/java/org/piengine/commons/math/coordinates/Cartesian3D.java:65-70 | the distance is the magnitude of the difference as a Vector3d |
| Cartesian.EqualsInts | src/main/java/org/piengine/commons/math/coordinates/Cartesian3D.java:80-82 | `equals(x, y, z)` holding means each coordinate is the int or that int is a saturation constant |
| Cartesian.EqualsIntsExact | src/main/java/org/piengine/commons/math/coordinates/Cartesian3D.java:80-82 | on whole coordinates that int and float hold, `equals` is equality of the coordinates, both ways |
| Cartesian.FractionsEqualMax | src/main/java/org/piengine/commons/math/coordinates/Cartesian3D.java:80-82 | two points with different fractional coordinates both equal (MAX, MAX, MAX) |
| Cartesian.NegativeFractionEqualsMin | src/main/java/org/piengine/commons/math/coordinates/Cartesian3D.java:80-82 | a negative fraction compares equal to `Integer.MIN_VALUE` |

## Left out

- IEEE 754 special values are not modelled: NaN, the infinities and −0.0 have no counterpart in `real`. `Vector3D.isValid` is only a NaN/infinity test, so it is left out.
- Rounding is not modelled. Every product, sum and quotient is exact, including `Vector3f` arithmetic and its `(float)` casts, `Math.abs` on a float pivot, and the `floatValue()` reads in `multiplyf` and `invertf`. So the float and double variants compute the same elements and differ only in the record kind.
- `Math.sqrt`, `Math.acos`, `Math.cos` and `Math.sin` are host calls taken as parameters. Only `sqrt` is constrained, by `IsSqrt`.
- The record constructors' `assert array.length == …` checks are not modelled. Records are taken to hold SIZE elements, because the model's `Valid` requires it.
- `Point3D` appears only as the datatype `toPoint`/`fromPoint` need. `getGeometry`, `getMaterial` and `Torus` are not part of this model, and neither is `module-info`.
- `Cartesian3D.add` and `subtract` are abstract in the interface, with no body to model.
- The row-less accessors of `Matrix1x2` (x, y and their readings) are not modelled; only its shape constants are.
- Inversion.SubtractRowLoop: the source runs one j loop over both arrays, and the model runs the same updates as one loop per array. This gives the same values, because each array's update reads only that array.
- VectorOperations.Reflect: its value is stated, through `ReflectIsMirror`, only when the receiver reads the normal exactly. When a Vector3f receiver reads a Vector3d normal through xf, the contract gives only the kind and the failure case.
- VectorOperations.ReflectIsMirror: it and the reflect lemmas built on it require the receiver to read the normal exactly (`ReadsExactly`). A Vector3f reflected about a Vector3d normal reads the scaled normal through xf, and that case is stated only through `Reflect`'s kind and failure clauses.
- Vectors.Add: componentwise results are stated for exactly read arguments. Otherwise the argument passes through the float reading, and `FloatPlusDoubleTenth` shows one such case.
- Vectors.Subtract: the same restriction as `Add`: componentwise results are stated only when the receiver reads the argument exactly (`ArgumentAs(u.kind, v) == v`).
