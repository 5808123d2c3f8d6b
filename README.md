# A model of a small Rust path tracer

The program renders one fixed scene of spheres into a plain-text PPM
image of 200 x 100 pixels. It works row by row from the top and, in each
row, pixel by pixel from the left. Each pixel averages 100 jittered rays
from a pinhole camera. Each ray is traced by `color`, which asks the list
of spheres for the nearest hit. A hit is handed to the sphere's material
(Lambertian or metal), which may scatter the ray, and `color` recurses to
a depth of 50. A ray that misses shows a sky gradient. The average goes
through a square root per channel (gamma 2), is converted to bytes, and
is written by a PPM writer. That writer counts the pixels it writes and
asserts that the count matches the announced `x * y`.

The model is written in Dafny, one module per source file:

- `Vec` is vec.rs.
- `Rays` is the ray type.
- `Rnd` is rnd.rs.
- `Hit` and `HitList` are hit.rs.
- `Mat` is mat.rs.
- `Sph` is sph.rs.
- `Cam` is cam.rs.
- `Color` is `color` in main.rs.
- `Ppm` is ppm.rs.
- `Render` is `main` in main.rs.
- `Arith` holds the real-arithmetic facts the proofs use.

Modelling conventions:

- `f32` is `real`, so identities hold exactly.
- The square root is the parameter `sqrt`. Results that need an exact
  root require `IsSqrt(sqrt)`.
- The random generator is the finite sequence of samples it would
  produce, each in [0, 1).
  - Every sampling operation takes the samples and returns the value
    together with the samples left over (`Sampled<T>`).
  - It returns `Exhausted` if the samples run out first.
- The output device is a `Sink` object. It holds the lines written so far
  and fails every write once its `room` is used up, which stands for any
  I/O error. Lines are values (`Magic`, `Size`, `MaxColor`, `Pixel`),
  not text.

Where the source loops, the model has a method with a loop:

- the rejection samplers;
- the closest-hit scan;
- the sample loop of a pixel;
- the two pixel loops of `main`.

Each loop method is proved equal to a function. The properties are proved
about those functions.

## Model

| member | source | states |
|---|---|---|
| Vec.Neg | src/vec.rs:6-11 | negates each component; `Vec.AddSubInverse` proves `-(-a) == a` and `a - b == a + (-b)`, and `Vec.ScalarMulNeg` proves `(-f) * v == -(f * v)` |
| Vec.Add | src/vec.rs:13-18 | the component-wise sum; `Vec.AddSubInverse` proves that subtracting `b` undoes adding it |
| Vec.Sub | src/vec.rs:26-31 | the component-wise difference; `Vec.AddSubInverse` proves it inverts `Add` and equals adding the negation |
| Vec.Mul | src/vec.rs:39-44 | the component-wise product; `Vec.Div` proves division undoes it, and `Color.AttenuateInUnitCube` that it keeps unit-cube colours in the unit cube |
| Vec.MulScalar | src/vec.rs:65-70 | each component times `f`; `Vec.ScalarMulCommutes` proves it agrees with `f * v` |
| Vec.Div | src/vec.rs:52-57 | component-wise division undoes component-wise `Mul` by a vector with no zero component |
| Vec.ScalarMul | src/vec.rs:72-77 | `f * v`, computed as `v * f`, is `f` times each component |
| Vec.DivScalar | src/vec.rs:85-91 | multiplying by the reciprocal divides each component by a non-zero `f` and undoes `v * f` |
| Vec.Dot | src/vec.rs:126-128 | the sum of the component products; `Vec.SquaredLength` proves `dot(v, v)` is the squared length, and `Vec.Lagrange` that `dot(a, b)^2 <= |a|^2 |b|^2` |
| Vec.Length | src/vec.rs:112-114 | the root of the squared length; `Vec.LengthIsRoot` proves it non-negative, squaring to the squared length, and positive iff the vector is non-zero |
| Vec.UnitVector | src/vec.rs:120-123 | `v` times `1 / length(v)`; `Vec.UnitVectorIsUnit` proves it is `v / length(v)` with length 1 for every non-zero `v` |
| Vec.SquaredLength | src/vec.rs:116-118 | `squared_length(v)` equals `dot(v, v)` and is never negative |
| Vec.SquaredLengthPositive | src/vec.rs:116-118 | the squared length is positive exactly for non-zero vectors |
| Vec.LengthIsRoot | src/vec.rs:112-114 | with an exact root, `length` is non-negative, squares to the squared length, and is positive exactly for non-zero vectors |
| Vec.UnitVectorIsUnit | src/vec.rs:120-123 | for non-zero `v`, `unit_vector(v)` is `v / length(v)` and has length 1 |
| Vec.Cross | src/vec.rs:130-136 | `cross(a, b)` is orthogonal to `a` and to `b` |
| Vec.Lagrange | src/vec.rs:126-136 | Lagrange's identity `|a|^2 |b|^2 - (a.b)^2 == |a x b|^2` |
| Vec.CrossAnticommutative | src/vec.rs:130-136 | `cross(a, b) == -cross(b, a)` |
| Vec.ScalarMulCommutes | src/vec.rs:65-77 | `f * v == v * f` |
| Vec.ScalarMulNeg | src/vec.rs:6-10 | scaling by `-f` is the negation of scaling by `f` |
| Vec.AddSubInverse | src/vec.rs:6-31 | subtraction undoes addition, `a - b == a + (-b)`, and negation is an involution |
| Rays.PointAt | src/sph.rs:25 | `point_at(t) - origin == t * direction` |
| Rnd.SphereCandidate | src/rnd.rs:8-13 | a candidate `2u - 1` has every component in [-1, 1) |
| Rnd.DiskCandidate | src/rnd.rs:22 | a disk candidate has x and y in [-1, 1) and z exactly 0 |
| Rnd.UnitSphereDraw | src/rnd.rs:6-18 | a drawn point has squared length < 1 and components in [-1, 1); a positive multiple of 3 samples is consumed from the front |
| Rnd.UnitDiskDraw | src/rnd.rs:20-27 | a drawn point has squared length < 1 and z == 0; a positive multiple of 2 samples is consumed from the front |
| Rnd.RandomInUnitSphere | src/rnd.rs:6-18 | the rejection loop returns exactly what `UnitSphereDraw` describes |
| Rnd.RandomInUnitDisk | src/rnd.rs:20-27 | the rejection loop returns exactly what `UnitDiskDraw` describes |
| Rnd.SphereDrawStep | src/rnd.rs:7-17 | one attempt: accept the first candidate or redraw from the next three samples |
| Rnd.SphereAttemptShift | src/rnd.rs:8-13 | dropping one attempt's three samples renumbers the later attempts |
| Rnd.SphereDrawFirstAccepted | src/rnd.rs:7-17 | the sampler returns attempt `k` if it is the first accepted one; every earlier candidate is discarded |
| Rnd.SphereDrawExhausted | src/rnd.rs:7-17 | if no attempt that fits in the samples is accepted, the sampler runs out of samples |
| Rnd.DiskDrawStep | src/rnd.rs:21-26 | one attempt of the disk sampler: accept or redraw from the next two samples |
| Rnd.DiskAttemptShift | src/rnd.rs:22 | dropping one attempt's two samples renumbers the later attempts |
| Rnd.DiskDrawFirstAccepted | src/rnd.rs:21-26 | the disk sampler returns its first accepted attempt and the samples after it |
| Rnd.DiskDrawExhausted | src/rnd.rs:21-26 | with no accepted attempt, the disk sampler runs out of samples |
| Mat.ReflectAcrossUnitNormal | src/mat.rs:56-58 | for a unit `n`, `dot(reflect(v, n), n) == -dot(v, n)`, and reflection keeps the length |
| Mat.ReflectInvolution | src/mat.rs:56-58 | for a unit `n`, reflecting twice gives `v` back |
| Mat.ScatterDrawsOnce | src/mat.rs:24-53 | every scatter consumes exactly one unit-ball draw, for both variants and any fuzz |
| Mat.Reflect | src/mat.rs:56-58 | `v - 2 (v . n) n`; `Mat.ReflectAcrossUnitNormal` proves that for a unit normal it flips the normal component and keeps the length, and `Mat.ReflectInvolution` that reflecting twice gives `v` back |
| Mat.MaterialScatter | src/mat.rs:24-54 | the scatter of both materials; `Mat.ScatterDrawsOnce` proves it draws one unit-ball sample, `Mat.LambertianScatter` and `Mat.MetalScatter` give each arm's ray and the metal's `dot > 0` test, `Mat.ScatterKeepsAlbedo` that the attenuation is the albedo |
| Mat.LambertianScatter | src/mat.rs:26-36 | Lambertian always scatters, from `rec.p` along `rec.normal + sample`, with its albedo as attenuation |
| Mat.MetalScatter | src/mat.rs:37-51 | Metal scatters iff `dot(reflect(unit(dir), n) + fuzz * sample, n) > 0`, from `rec.p` and with its albedo; otherwise it absorbs |
| Mat.MirrorReflects | src/mat.rs:37-51 | a mirror (fuzz 0) with a unit normal always reflects a ray that comes in against the normal |
| Mat.ScatterKeepsAlbedo | src/mat.rs:24-53 | a scattered ray's attenuation is the material's albedo |
| Sph.SphereHit | src/sph.rs:15-48 | a hit has `start < t < end`, `p == point_at(t)`, the normal `(p - center) / radius` and the sphere's material; `t` is the near or the far root; a discriminant <= 0 misses |
| Sph.SurfaceQuadratic | src/sph.rs:16-20 | the squared distance of `point_at(t)` from the centre, minus `radius^2`, is `a t^2 + 2 b t + c` |
| Sph.NearRoot | src/sph.rs:22 | `(-b - sqrt(b^2 - ac)) / a`; `Sph.RootsOfSphere` proves that with a positive discriminant it is no farther than `Sph.FarRoot`, and that the two are exactly the ray's surface points |
| Sph.FarRoot | src/sph.rs:34 | `(-b + sqrt(b^2 - ac)) / a`; `Sph.RootsOfSphere` proves it and `Sph.NearRoot` are exactly the ray's surface points, the far one not nearer |
| Sph.Record | src/sph.rs:24-32 | the hit record at `t`: the point on the ray and the normal `(p - center) / radius`; `Sph.SphereNormalIsUnit` proves that normal has length 1 |
| Sph.DiscriminantBound | src/sph.rs:17-20 | the discriminant is at most `a * radius^2` |
| Sph.DiscriminantPositive | src/sph.rs:20-22 | a positive discriminant needs a non-zero direction and a non-zero radius |
| Sph.ZeroRadiusNeverHit | src/sph.rs:15-48 | a sphere of radius 0 is never hit |
| Sph.RootsOfSphere | src/sph.rs:20-34 | with a positive discriminant, near root <= far root, and these two are exactly the ray's surface points |
| Sph.SphereHitIsNearestRoot | src/sph.rs:21-45 | a returned `t` is a surface point and no surface point lies in the range before it |
| Sph.SphereMissHasNoRoot | src/sph.rs:21-47 | a miss with a non-zero discriminant has no surface point in the range |
| Sph.SphereHitNarrowed | src/sph.rs:15-48 | narrowing the range end to `bound` keeps a hit before `bound` and otherwise misses |
| Sph.SphereNormalIsUnit | src/sph.rs:25-26 | the normal of a hit has length 1 |
| Sph.FrontHit | src/sph.rs:16-33 | the ray from the origin along -z meets the sphere at (0, 0, -1) of radius 0.5 at t = 0.5, point (0, 0, -0.5), normal (0, 0, 1) |
| HitList.ListHit | src/hit.rs:30-42 | a list hit has `start < t < end`; the empty list misses |
| HitList.ListHitScan | src/hit.rs:30-42 | the scan loop, narrowing `closest_so_far`, returns exactly `ListHit` |
| HitList.ListHitNoneIff | src/hit.rs:32-40 | the list misses iff every member misses over the whole range |
| HitList.ListHitNeverFarther | src/hit.rs:32-38 | once a record is held it is never dropped, and its `t` never grows |
| HitList.ListHitNearest | src/hit.rs:34-38 | the list's `t` is <= every member's own hit `t` over the whole range |
| HitList.ListHitFirstNearest | src/hit.rs:34-38 | the list's record is the hit of a member, and every earlier hit member is strictly farther (ties keep the earlier one) |
| HitList.ListHitNoFartherThanPermuted | src/hit.rs:30-42 | a reordering of a hitting list also hits, no farther away |
| HitList.ListHitOrderInvariant | src/hit.rs:30-42 | whether the list hits, and the `t` of the hit, do not depend on the order of the members |
| HitList.ListHitFirstSurface | src/hit.rs:30-42 | no member has a surface point in the range before the list's hit (grazing members excepted) |
| Cam.GetRay | src/cam.rs:12-18 | the ray starts at the camera origin and reaches the viewport point `llc + u h + v v'` at parameter 1 |
| Cam.GetRayCorners | src/cam.rs:15-16 | the four corners of the viewport are reached at (0,0), (1,0), (0,1) and (1,1) |
| Cam.GetRayAffine | src/cam.rs:15-16 | `dir(u, v) - dir(0, 0) == u * horizontal + v * vertical` |
| Color.Background | src/main.rs:41-45 | the sky gradient; `Color.BackgroundBlend` proves it is the blend `(1 - t) white + t (0.5, 0.7, 1)` with `t` in [0, 1] |
| Color.Color | src/main.rs:28-47 | the traced colour; `Color.ColorMiss`, `Color.ColorBlackHit`, `Color.ColorConsumesPrefix` and `Color.ColorInUnitCube` prove its miss and black-hit arms, its use of the samples, and its range |
| Color.Bounce | src/main.rs:30-39 | the scatter and recursion arms of `color`; `Color.BounceConsumesPrefix` and `Color.BounceInUnitCube` prove their use of the samples and their range |
| Color.BackgroundBlend | src/main.rs:41-45 | the blend factor `t` lies in [0, 1], and the sky is `(1 - t/2, 1 - 0.3 t, 1)` |
| Color.UnitHeight | src/main.rs:42-43 | the height of `unit_vector(dir)` lies in [-1, 1] |
| Color.ColorMiss | src/main.rs:29-45 | a ray that every sphere misses over `(0.001, f32::MAX)` gives exactly `Background` of its direction and draws no samples; that sky lies between white and (0.5, 0.7, 1) |
| Color.ColorBlackHit | src/main.rs:30-39 | a hit that is absorbed, or is at depth >= 50, is black; the scatter has drawn its sample first |
| Color.ColorConsumesPrefix | src/main.rs:28-47 | `color` only consumes samples from the front of the stream |
| Color.BounceConsumesPrefix | src/main.rs:30-39 | the scatter and recursion arms of `color` only consume samples from the front |
| Color.ColorInUnitCube | src/main.rs:28-47 | with every albedo in [0, 1], every colour lies in the unit cube |
| Color.BounceInUnitCube | src/main.rs:30-39 | attenuating a recursive colour by an albedo in [0, 1] stays in the unit cube |
| Color.HitMaterialFromWorld | src/main.rs:29-30 | the material of the world's hit is one member's material |
| Color.AttenuateInUnitCube | src/main.rs:37 | the component-wise product of two unit-cube vectors lies in the unit cube |
| Ppm.Header | src/ppm.rs:11-13 | the three header lines "P3", "x y", "255"; `Ppm.Writer.New` proves they are what the writer writes first, and `Render.RenderImage` that they precede the pixels |
| Ppm.Sink.WriteLine | src/ppm.rs:22 | a write succeeds iff the device has room; it then appends exactly the line, and otherwise changes nothing |
| Ppm.Writer.New | src/ppm.rs:10-19 | with room for three lines, writes "P3", "x y", "255" and starts with `written == 0`, `expected == x * y`; otherwise writes what fits and fails |
| Ppm.Writer.WritePixel | src/ppm.rs:21-29 | a failed write changes nothing; a successful one appends one pixel line, adds 1 to `written`, and succeeds iff `written <= expected` (else panics) |
| Ppm.Writer.Drop | src/ppm.rs:32-38 | the drop assertion holds iff `written == expected` |
| Render.MainCameraDirection | src/main.rs:89-94 | every ray of the image camera has direction `(-2 + 4u, -1 + 2v, -1)`, which is never the zero vector |
| Render.MainCameraCentre | src/main.rs:89-94 | the centre of the image, (0.5, 0.5), looks from the origin along (0, 0, -1) |
| Render.OneSample | src/main.rs:100-103 | one jittered camera ray traced with `color`; `Render.SampleInUnitCube` proves it in the unit cube with albedos in [0, 1] |
| Render.SampleSum | src/main.rs:98-104 | the sum of `k` samples; `Render.SamplePixel` proves the loop computes it, `Render.SampleSumInRange` bounds it, `Render.SampleSumExhausted` shows running out is final |
| Render.ToByte | src/main.rs:108-110 | the saturating `as u8` cast; `Render.GammaByte` proves it is plain `floor` of `255.99 g` for every root `g` of a channel in [0, 1] |
| Render.PixelLine | src/main.rs:105-110 | average, gamma root, byte conversion; `Render.PixelNeverClipped` proves each byte is `floor(255.99 * sqrt(average))` |
| Render.SampleCoordInPixel | src/main.rs:100-101 | a jittered coordinate `(i + u) / n` lies in `[i/n, (i+1)/n)` |
| Render.SampleSumExhausted | src/main.rs:99-104 | once the samples run out, every longer sum runs out |
| Render.SampleSumInRange | src/main.rs:98-104 | a sum of `k` unit-cube samples has each component in [0, k] |
| Render.SamplePixel | src/main.rs:98-104 | the sample loop of one pixel computes the sum of exactly `NS` samples of that pixel |
| Render.SumSamples | src/main.rs:98-104 | the loop `col += sample(..)` run `k` times computes the sum of exactly `k` samples, or runs out with that sum |
| Render.PixelAt | src/main.rs:98-112 | what is drawn for a pixel is always a pixel line |
| Render.ComputePixel | src/main.rs:98-111 | the loop body up to the write computes exactly `PixelAt` |
| Render.SampleInUnitCube | src/main.rs:100-103 | with albedos in [0, 1], each sample of a pixel lies in the unit cube |
| Render.GammaByte | src/main.rs:107-110 | a root `g` of a channel in [0, 1] converts to the byte `floor(255.99 g)` without saturation |
| Render.GammaChannel | src/main.rs:107-110 | with an exact root, a channel in [0, 1] gives the byte `floor(255.99 sqrt(c))` |
| Render.AverageInUnitCube | src/main.rs:105 | dividing a sum with components in [0, NS] by NS lands in the unit cube |
| Render.PixelNeverClipped | src/main.rs:98-110 | with albedos in [0, 1] and an exact root, each channel byte is `floor(255.99 * sqrt(average))` |
| Render.RowLines | src/main.rs:97-113 | the lines of the first `n` pixels of row `j`; `Render.RowLinesShape` and `Render.RowLinesExhausted` prove their number, each line, and running out |
| Render.Rows | src/main.rs:96-114 | the lines of the top `m` rows; `Render.RowsShape`, `Render.RowsPrefix`, `Render.RowsAppend`, `Render.RowsLine` and `Render.RowsPixel` prove their number and layout |
| Render.Frame | src/main.rs:96-114 | all `NY` rows drawn with the scene's pixel function; `Render.FrameLayout` proves its size and that pixel `(i, j)` sits at `(NY - 1 - j) * NX + i` |
| Render.RowLinesShape | src/main.rs:97-113 | a row of `n` pixels has `n` lines, and line `i` is what pixel `(i, j)` draws from the samples its left neighbours left |
| Render.RowLinesLength | src/main.rs:97-113 | a drawn row of `n` pixels has `n` lines |
| Render.RowLinesPixel | src/main.rs:97-113 | line `i` of a drawn row is what pixel `(i, j)` draws from the samples the first `i` pixels leave |
| Render.RowsShape | src/main.rs:96-114 | the top `m` rows have `m * w` lines |
| Render.RowsPrefix | src/main.rs:96-114 | the top `k` rows are a prefix of the top `m` rows for `k <= m` |
| Render.RowsAppend | src/main.rs:96-114 | drawn top rows are the rows above followed by the next row down |
| Render.RowsStep | src/main.rs:96-114 | one more row extends the top rows by the lines of row `NY - 1 - m`, or runs out |
| Render.RowsLine | src/main.rs:96-114 | line `Pixels(k) + i` of the top `m` rows is line `i` of row `NY - 1 - k` |
| Render.RowsNextLine | src/main.rs:96-114 | line `Pixels(k) + i` of the top `k + 1` rows is line `i` of row `NY - 1 - k` |
| Render.RowsIndexPrefix | src/main.rs:96-114 | each line of the top `k` rows is the same line of the top `m` rows, `k <= m` |
| Render.RowsPixel | src/main.rs:96-114 | line `Pixels(k) + i` of the top `m` rows is what pixel `(i, NY - 1 - k)` draws |
| Render.RowsPixelAt | src/main.rs:96-114 | line `Pixels(NY - 1 - j) + i` of the top rows is what pixel `(i, j)` draws from the samples left by the rows above and the pixels to its left |
| Render.RowLinesExhausted | src/main.rs:97-113 | once the samples run out in a row, the rest of the row runs out |
| Render.RowsExhausted | src/main.rs:96-114 | once the samples run out, the remaining rows run out |
| Render.PictureDrawsPixels | src/main.rs:106-112 | the scene's pixel function only draws pixel lines |
| Render.FrameLayout | src/main.rs:96-114 | the frame has `NX * NY` lines, and line `(NY - 1 - j) * NX + i` is what pixel `(i, j)` draws: rows from the top, each left to right |
| Render.PixelsTotal | src/main.rs:52-56 | the rows of the image hold `nx * ny` pixels, the count the writer expects |
| Render.RenderImage | src/main.rs:49-116 | Err iff the header does not fit, and then the sink holds exactly the header lines that fitted; Ok only with room for the header and all `NX * NY` pixel lines, and then exactly the header followed by the frame is written; with that room and a drawn frame it is Ok; a panic at the drop happens only when the room runs out among the pixels, leaving the sink full; on a panic or OutOfSamples the sink holds the header followed by `LinesBefore(k, n)` for some pixel `(n, NY - 1 - k)` of the image; OutOfSamples only when the frame runs out of samples |
| Render.LinesBefore | src/main.rs:96-114 | the pixel lines the loops write before pixel `(n, NY - 1 - k)`: the top `k` rows, then the first `n` pixels of the next row down; `Render.WritePixels` and `Render.RenderImage` use it to state where they stopped |
| Render.WritePixels | src/main.rs:96-114 | the two loops over `NY` rows of `nx` pixels complete only with room for `nx * NY` lines, and then have written exactly the lines of `Rows(NY, nx, ..)` with `written == expected`; otherwise they stop at pixel `(cols, NY - 1 - rows)` having written exactly `LinesBefore(rows, cols)` and counted `rows * nx + cols` pixels: at a failed write the room was exactly that count and is now 0, and when the samples run out that pixel is the one whose drawing ran out |
| Render.NextRow | src/main.rs:96-114 | one turn of the outer loop writes the `nx` lines of the next row down and adds `nx` to `written`; otherwise it writes the first `|line|` < `nx` lines of that row, a prefix of `RowLines`, and stops at a failed write that leaves the room 0, or at the pixel that runs out of samples |
| Render.WriteRow | src/main.rs:97-113 | the inner loop writes the `nx` lines of row `j` in order; on any exit the sink has received exactly the first `|line|` lines of the row and `written` and the room moved by `|line|`; a failed write happens exactly when `|line|` reached the old room, which is then 0; running out of samples happens at pixel `|line|` |

## Left out

- The `&T` and `&mut T` impls of `Hittable` (src/hit.rs:18-28) are not
  modelled. They only forward the call, and the model has no references.
- Each compound assignment (`+=`, `-=`, `*=`, `/=`) has no member of its
  own. The model rebinds with the binary operation, e.g. `col += c`
  becomes `col := Add(col, c)`.
- Only lists of spheres are modelled. The generic `Vec<T>` scan is
  modelled for spheres, the only members the program uses.
- Floating-point rounding, NaN and infinity are not modelled.
  - Components are reals.
  - Division by zero yields 0 in the model, through `Quot`.
    - `unit_vector` of the zero vector therefore gives the zero vector.
    - For the zero direction the source's sky is NaN, while the
      model's is (0.75, 0.85, 1). The lemmas below also cover the zero
      direction only through this convention.
    - `Color.UnitHeight`, `Color.BackgroundBlend`, `Color.ColorMiss` and
      `Color.ColorInUnitCube` hold for every ray direction, the zero
      vector included.
    - `Mat.MetalScatter` holds for every incoming direction, the zero
      vector included.
    - `Mat.ScatterDrawsOnce` and `Mat.ScatterKeepsAlbedo` hold for every
      incoming direction too; they do not depend on the divisor.
    - Every other property whose truth depends on a division is stated for
      a non-zero divisor.
    - The camera rays of `main` are never zero (`Render.MainCameraDirection`).
      A scattered ray's direction is not proved non-zero.
- The square root is a parameter. Its value on negative arguments is
  never used by a property.
- A sphere the ray only grazes (discriminant 0) is reported as a miss, as
  in the source. `Sph.SphereMissHasNoRoot` and
  `HitList.ListHitFirstSurface` therefore except it.
- Integer overflow of `u64` in the writer's `x * y` and `written` is not
  modelled. The counts are unbounded.
- The text formatting of the PPM lines is not modelled. Lines are
  values.
- I/O errors are modelled only as the sink running out of room.
- The random generator's algorithm and its seed are not modelled. The
  samples are whatever sequence is given.
- `Exhausted` and `OutOfSamples` exist only in the model, because the
  sample sequence is finite: the source's retry loops have no bound.
- The scene literal (src/main.rs:58-87) is not modelled. The scene is a
  parameter. Its metal spheres lack the `fuzz` field that `Material::Metal`
  declares, so it does not match src/mat.rs.
- `Hit.HitRecord.material` is a copy of the sphere's material, where the
  record in src/hit.rs borrows it as `&'a Material`. Lifetimes and
  sharing are not modelled.
- The ray type's source is not part of this model. `Rays.Ray` and
  `Rays.PointAt` are assumed from their uses.
- `random_in_unit_disk` has no caller in the program. It is modelled on
  its own.
- `main` returns `Result`; on a failed pixel write the `?` returns the
  error and the writer is then dropped. An early return leaves fewer
  pixels written than announced, so that drop panics.
  `Render.RenderImage` reports this as `Panic`.
- The pixel loops (`Render.WritePixels`, `Render.NextRow` and
  `Render.WriteRow`) take the pixel computation as a function value. They
  apply `PixelAt` rather than calling the sampling loop method. That
  `Render.ComputePixel` computes `PixelAt` is proved on its own.
- The pixel loops also take the row width `nx` as a parameter, where `main`
  binds `nx = 200` locally. `Render.RenderImage` passes `NX`.
