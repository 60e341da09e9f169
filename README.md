# rust-raytracing core, modelled in Dafny

A model of the integer, structural and guard-level logic of a small CPU path
tracer ("Ray Tracing: The Next Week" in Rust). It covers:

- **Geometry values:** the `Vec3` and `Ray` value types, axis-aligned bounding boxes (`surrounding_box` and the slab test) and hit records with face-normal orientation.
- **Scene objects and their `hit` queries:** spheres, moving spheres, axis-aligned rectangles, boxes made of six rectangles, constant-density media, hittable lists (closest-hit scan) and bounding volume hierarchy nodes (construction and traversal).
- **Perlin tables:** permutation tables and the hashed corner lookups of `noise`, plus the accumulation in `turbulence`.
- **Threaded renderer:** the work split `divide_into_ranges` and the RGBA pixel-buffer state machine.
- **Output:** `write_color`, which quantises a pixel and writes its `r g b` line.

How the source is represented:

- **Numbers.** Floating-point numbers are reals. The query bounds `t_min`/`t_max` are extended reals (`Interval.Bound`), because callers pass plus and minus infinity. Integers are unbounded. Perlin's `i32` values are 32-bit patterns (`bv32`), so masking is exact and `i + d` wraps around as in a release build (a debug build would panic on that overflow).
- **Outside inputs.** `sqrt`, the natural logarithm of a random draw, the BVH's random axis, the shuffle targets of `permutate` and the random vectors of `Perlin::new` are all parameters.
  - Every `sqrt` parameter is constrained by `Vec3.IsSqrt`.
  - Draws made during a query are looked up by the position of the drawing object in the traversal (`Hittable.Env`).
- **The `hit` query.** Each object kind has a specification function that returns `Option<HitValue>`: the record as the object leaves it, or `None` when the object reports no hit. The in-place `hit(ray, t_min, t_max, &mut rec) -> bool` is a method on a `HitRecord` object. It returns true exactly when the function gives a record, and writes that record, or leaves `rec` as it was.
- **Renderer.** `ThreadedRenderer` is a class over an `array` of bytes. The worker channel is a queue of pending pixels, filled by `Send`, and the thread pool is a flag.

Where the snapshot's files disagree, one model is used throughout:

- `AABB` and `Aabb` are the same type.
- `HitRecord` has seven fields: `p`, `normal`, `t`, `front_face`, `material`, `u`, `v`.
- Every object's `hit` uses the record-passing form. `Sphere::hit` and `HittableList::hit`, written in the snapshot in the `Option` form, become the record as they return it.
- A `Ray` carries a `time`, and `Ray::new` sets it to 0.

## Model

| member | source | states |
|---|---|---|
| Vec3.Vec3.Index | src/vec3.rs:64-70 | indexing yields a value exactly for indices 0..2, and it is component `e[i]`; index 3 or more is the panic (None) |
| Vec3.Vec3.IndexMut | src/vec3.rs:72-76 | writing through `v[i]` succeeds exactly for indices 0..2, sets component `i` and leaves the other two unchanged |
| Vec3.LengthSquared | src/vec3.rs:33-35 | the squared length is never negative |
| Vec3.AddAssign | src/vec3.rs:38-48 | `v += other` adds componentwise, and subtracting `other` again gives back `v` |
| Vec3.MulAssignComposes | src/vec3.rs:50-56 | `v *= s` then `v *= t` is `v *= s*t`, and `v *= 1` leaves `v` unchanged |
| Vec3.DivAssign | src/vec3.rs:58-62 | `v /= s` (multiplication by `1/s`) is undone by `v *= s`, for non-zero `s` |
| Ray.AtShift | src/ray.rs:32-34 | going `t1 + t2` along a ray reaches the same point as going `t1`, then `t2` along the same direction from there |
| Ray.AtZero | src/ray.rs:32-34 | `at(0)` is the ray's origin |
| HitRecord.FaceNormal | src/hittable.rs:51-58 | front-facing exactly when the direction and the outward normal have negative dot product; the normal is the outward normal when front-facing and its negation otherwise |
| HitRecord.FaceNormalOpposesRay | src/hittable.rs:13-18 | the oriented normal never points along the ray: `dot(direction, normal) <= 0` |
| HitRecord.NewRecord | src/hittable.rs:12-25 | `HitRecord::new` keeps `p` and `t`, orients the normal by the face rule, and has no material and `u = v = 0` |
| HitRecord.HitRecord.Empty | src/hittable.rs:27-34 | the empty record: origin point, zero normal, `t = 0`, not front-facing |
| HitRecord.HitRecord.CopyFrom | src/hittable.rs:36-41 | `copy_from` makes `p`, `normal`, `t` and `front_face` equal to the other record's and leaves material, `u` and `v` alone |
| HitRecord.HitRecord.SetFaceNormal | src/hittable.rs:51-58 | orients the normal in place by the face rule; `p`, `t`, material, `u` and `v` are unchanged |
| HitRecord.DefaultHit | src/hittable.rs:61-65 | the default `hit` reports no intersection and writes nothing |
| Aabb.Empty | src/aabb.rs:10-16 | the empty box has both corners at the origin, so the origin is the only point inside it |
| Aabb.SurroundingBox | src/aabb.rs:48-62 | the union contains both operands and is contained in every box that contains both (the least enclosing box) |
| Aabb.SurroundingCommutes | src/aabb.rs:48-62 | the union does not depend on operand order |
| Aabb.SurroundingIdempotent | src/aabb.rs:48-62 | the union of a box with itself is that box |
| Aabb.ClipNarrows | src/aabb.rs:32-39 | clipping against one axis's slab never widens the parameter interval |
| Aabb.ClipAxis | src/aabb.rs:32-39 | one loop iteration: entry and exit distances swapped for a negative direction, the interval raised and lowered to them |
| Aabb.HitAsWritten | src/aabb.rs:30-46 | the test as written: true exactly when every axis, each clipped against the original interval, leaves a non-empty interval |
| Aabb.Hit | src/aabb.rs:30-46 | the corrected test: true exactly when the interval stays non-empty after clipping against all three slabs in turn |
| Aabb.EmptyQueryMisses | src/aabb.rs:38-41 | a query with `t_max <= t_min` misses in both readings |
| Aabb.UnitTestHit | src/aabb.rs:70-83 | the unit cube and the ray from (0.5,-0.5,0.5) along +y: a miss on [0, 0.4] and a hit on [0, 10], in both readings |
| Aabb.ClipSound | src/aabb.rs:32-39 | a parameter strictly inside the clipped interval puts the ray inside the box's slab on that axis |
| Aabb.RunningNarrows | src/aabb.rs:31-43 | clipping more axes only narrows the running interval |
| Aabb.ClipMonotone | src/aabb.rs:32-39 | clipping a narrower interval against a slab gives a narrower result |
| Aabb.HitsImpliesSlabsOverlap | src/aabb.rs:30-46 | every query the corrected test accepts, the test as written accepts too |
| Aabb.HitsIsSound | src/aabb.rs:30-46 | when the corrected test reports a hit, some parameter strictly inside the query interval puts the ray inside the box |
| Aabb.AsWrittenReportsMiss | src/aabb.rs:30-46 | a ray that never enters the unit cube is reported as hitting it by the test as written, and as missing it by the corrected test |
| Aarect.XYRect | src/aarect.rs:37-47 | the constructor's corners are (x0, y0, k) and (x1, y1, k), with the given material |
| Aarect.XZRect | src/aarect.rs:50-60 | the constructor's corners are (x0, k, z0) and (x1, k, z1), with the given material |
| Aarect.YZRect | src/aarect.rs:63-73 | the constructor's corners are (k, y0, z0) and (k, y1, z1), with the given material |
| Aarect.BoundingBox | src/aarect.rs:76-86 | always a box: the rectangle's extent on its two axes, and the plane coordinate padded by 0.0001 on each side (the same for XZ at 111-121 and YZ at 146-156) |
| Aarect.FractionInUnit | src/aarect.rs:99-100 | `(x - x0)/(x1 - x0)` lies in [0, 1] for `x` in [x0, x1] |
| Aarect.HitCases | src/aarect.rs:88-107 | a hit exactly when the plane-crossing `t` is in [t_min, t_max] and the crossing point lies within both extents. On a hit: `t`, `p = at(t)` on the plane, the rectangle's material, the face rule against the outward axis normal, and `u`, `v` in [0,1] for non-empty extents (the same for 123-142 and 158-177) |
| Aarect.HitLiesInBox | src/aarect.rs:76-107 | every hit point lies in the rectangle's padded bounding box |
| Aarect.Hit | src/aarect.rs:88-107 | the in-place `hit` returns true exactly on a hit, writes that record, and leaves `rec` unchanged on every rejection |
| Aarect.FrameHitIff | src/aarect.rs:88-97 | the two rejection guards, in the rectangle's own frame: a hit exactly when `t` is in range and the point is within both extents |
| Aarect.FrameHitRecord | src/aarect.rs:99-105 | the fields a hit writes, in the rectangle's own frame |
| Aarect.FrameHitUnitSquare | src/aarect.rs:99-100 | the texture coordinates of a hit lie in [0,1] when the extents are non-empty |
| Sphere.SelectRoot | src/sphere.rs:30-36 | a root is chosen exactly when one of the two lies in range. The chosen root is in range and is one of the two, and the smaller root is taken whenever it is in range |
| Sphere.NearNotAfterFar | src/sphere.rs:30-32 | the first root tried is never larger than the fallback |
| Sphere.SelectsNearestRoot | src/sphere.rs:30-36 | the chosen root is at most every root in range: the nearest intersection wins |
| Sphere.Root | src/sphere.rs:24-36 | a root returned for a sphere lies in [t_min, t_max] |
| Sphere.Hit | src/sphere.rs:18-43 | a record has `t` in [t_min, t_max], `p = at(t)`, the normal oriented by `HitRecord::new` against `(p - center)/radius`, and no material |
| Sphere.NegativeDiscriminantMisses | src/sphere.rs:24-27 | a negative discriminant gives no hit |
| Sphere.HitIsNearestRoot | src/sphere.rs:28-41 | when some intersection parameter lies in range, there is a hit no farther than it |
| Sphere.HeadOnHit | src/sphere.rs:18-43 | a ray from the origin along -z meets the sphere of radius 0.5 at (0,0,-1) at `t = 0.5`, front-facing |
| MovingSphere.CenterEndpoints | src/moving_sphere.rs:37-40 | the centre is `center0` at `time0` and `center1` at `time1` |
| MovingSphere.BoundingBox | src/moving_sphere.rs:74-85 | always a box: it contains the sphere's boxes at both times and is contained in every box that contains both, so it is their union |
| MovingSphere.BoundingBoxHoldsCenters | src/moving_sphere.rs:74-85 | both end-time centres lie in the bounding box |
| MovingSphere.HitSpec | src/moving_sphere.rs:44-72 | a hit has `t` in range, `p = at(t)`, the normal oriented against `(p - center(ray.time))/radius`, the sphere's material, and the caller's `u`, `v` kept |
| MovingSphere.HitIsStaticHitAtRayTime | src/moving_sphere.rs:44-72 | the moving sphere hits exactly when the static sphere frozen at the ray's time hits, at the same `t`, point and orientation |
| MovingSphere.Hit | src/moving_sphere.rs:44-72 | the in-place `hit` returns true exactly on a hit, writes that record, and leaves `rec` unchanged when the discriminant is negative or both roots are out of range |
| Medium.Entry | src/constant_medium.rs:74-76 | the entry is raised to `t_min`: at least both, and equal to the entry or to `t_min` |
| Medium.Exit | src/constant_medium.rs:77-79 | the exit is lowered to `t_max`: at most both, and equal to the exit or to `t_max` |
| Medium.FreeFlight | src/constant_medium.rs:74-97 | the clamp, empty-span rejection, raise to 0 and distance comparison produce the sampled parameter of `Sample` |
| Medium.EmptySpanMisses | src/constant_medium.rs:81-83 | no hit when the clamped entry is not before the clamped exit |
| Medium.SampleInSpan | src/constant_medium.rs:85-97 | for a positive density, a draw in [0,1) other than 0 and a ray of positive length, a sampled `t` is in [t_min, t_max], not negative, and between the boundary's entry and exit |
| ConstantMedium.New | src/constant_medium.rs:19-25 | stores the boundary, an isotropic phase function of the texture, and `-1/density` (its product with the density is -1) |
| ConstantMedium.NewFromColor | src/constant_medium.rs:27-33 | the same medium, with a solid-colour texture |
| ConstantMedium.PositiveDensityIsDense | src/constant_medium.rs:19-25 | a positive density gives a non-positive `-1/density`, so sampled distances are not negative |
| Hittable.BoundingBox | src/bvh.rs:121-123 | a BVH node reports its stored box and a box its two corners (box_struct.rs:82-84), whatever the times. Rectangles and moving spheres always have one; spheres and lists have none |
| Hittable.MediumBoxIsBoundaryBox | src/constant_medium.rs:37-39 | a medium's box is its boundary's box |
| Hittable.HitWithin | src/hittable_list.rs:26-37 | for every object kind, a reported hit lies in [t_min, t_max] |
| Hittable.MediumWithin | src/constant_medium.rs:56-110 | a medium's hit lies in [t_min, t_max] and is not negative |
| Hittable.ScanWithin | src/hittable_list.rs:29-35 | the list scan's record lies in [t_min, t_max] |
| Hittable.ListScanNoneIff | src/hittable_list.rs:26-37 | the scan finds nothing exactly when no object reported a hit |
| Hittable.ListScanNoneMeansMisses | src/hittable_list.rs:26-37 | if the scan finds nothing, every object missed |
| Hittable.ListScanMissesMeanNone | src/hittable_list.rs:26-37 | if every object missed, the scan finds nothing |
| Hittable.ListScanStep | src/hittable_list.rs:29-35 | before any hit, the next object is queried with the original `t_max`; after a hit, the scan keeps a record |
| Hittable.ListScanCloser | src/hittable_list.rs:29-35 | once a hit is found, later steps keep a hit whose `t` is no larger: the closest-so-far bound only shrinks |
| Hittable.BvhHitCases | src/bvh.rs:109-119 | a miss on the node box (the corrected slab test, see Left out) means no hit. Otherwise the right child is searched up to the left hit's `t` (or `t_max`), and there is a hit exactly when either child hit, the right child's record winning |
| Hittable.Hit | src/hittable.rs:61-65 | `hit` on any object returns true exactly when its specification gives a record, writes that record, and leaves `rec` untouched otherwise |
| Hittable.ScanList | src/hittable_list.rs:20-38 | the scan loop, querying each object up to the closest hit so far, ends with the specification's record and result |
| Hittable.MediumHitInPlace | src/constant_medium.rs:41-111 | the medium's `hit`: the two boundary queries on fresh records, the clamps and the sample; on a hit it writes `t`, `p`, normal (1,0,0), front face and the phase material |
| Hittable.BvhHitInPlace | src/bvh.rs:109-119 | the node's `hit`: false with `rec` untouched on a box miss (corrected slab test), otherwise left then narrowed right, result `hit_left \|\| hit_right` |
| HittableList.HittableList.constructor | src/hittable_list.rs:8-12 | a new list is empty |
| HittableList.HittableList.Add | src/hittable_list.rs:14-16 | `add` appends at the end and keeps the earlier objects |
| HittableList.HittableList.AsHittable | src/hittable_list.rs:3-5 | the list as a scene object has exactly the list's objects as children |
| HittableList.HittableList.Hit | src/hittable_list.rs:20-38 | the list's `hit` is the closest-hit scan over its objects |
| BoxStruct.SidesSpanBox | src/box_struct.rs:19-78 | six sides in order XY at max z, XY at min z, XZ at max y, XZ at min y, YZ at max x, YZ at min x. Each spans the box's extent on its other two axes and carries the box's material |
| BoxStruct.New | src/box_struct.rs:19-78 | the box keeps its corners and its six sides |
| BoxStruct.BoundingBoxIsCorners | src/box_struct.rs:82-84 | the box's bounding box is exactly (min, max), whatever the times |
| BoxStruct.ScanDependsOnChildrenOnly | src/box_struct.rs:86-94 | a scan is determined by the children alone |
| BoxStruct.HitIsSidesScan | src/box_struct.rs:86-94 | the box's `hit` is the list scan over its six sides |
| Bvh.Axis | src/bvh.rs:27-33 | the comparator axis is the draw for 0 and 1, and z for every other draw |
| Bvh.BoxCompare | src/bvh.rs:83-94 | orders by the minimum corner's coordinate on the axis (0.0 for an object without a box): Less, Equal and Greater exactly as the keys compare |
| Bvh.BoxCompareFlips | src/bvh.rs:83-94 | swapping the operands swaps Less and Greater and keeps Equal |
| Bvh.InsertLast | src/bvh.rs:48 | inserting one object into a sorted run keeps it sorted and adds exactly that object |
| Bvh.SortByKey | src/bvh.rs:48 | `sort_by(comparator)` yields a permutation of the objects, sorted by key |
| Bvh.Build | src/bvh.rs:19-76 | `BVHNode::new` on a non-empty slice gives a node whose box contains both children's boxes (an empty box for a child without one) and is contained in every box that contains both, so it is their `surrounding_box` |
| Bvh.BuildOne | src/bvh.rs:38 | with one object, both children are that object |
| Bvh.BuildTwo | src/bvh.rs:39-46 | with two objects, both go to the node, the left one not after the right one by key, and on a tie `objects[1]` goes left |
| Bvh.BuildSplit | src/bvh.rs:47-56 | with three or more, the sorted objects split at `n/2`: both halves non-empty, together the objects, every left key at most every right key, each half built recursively |
| Bvh.BuildKeepsObjects | src/bvh.rs:19-76 | the leaves of the built tree are exactly the input objects |
| Perlin.IdentityTable | src/perlin.rs:74-80 | the table before shuffling holds `p[i] = i` for all 256 entries |
| Perlin.Swap | src/perlin.rs:91 | a swap exchanges two entries, changes no other, and keeps the multiset of entries |
| Perlin.ShufflePermutes | src/perlin.rs:87-93 | the shuffle only permutes the table |
| Perlin.ShuffleKeepsAbove | src/perlin.rs:89-91 | steps at indices below `k` never touch entry `k`: every target is below its index |
| Perlin.GeneratedIsPermutation | src/perlin.rs:74-93 | a generated table is a permutation of 0..255, so every entry indexes the vector table |
| Perlin.Permutate | src/perlin.rs:87-93 | the in-place loop from 255 down to 1, swapping `i` with a target in [0, i), leaves the array equal to the shuffle |
| Perlin.GeneratePerm | src/perlin.rs:74-85 | a fresh 256-entry array holding the shuffled identity, every entry in 0..255 |
| Perlin.HashIndex | src/perlin.rs:46-48 | `(i + d) & 255` is in 0..255 for every 32-bit `i`, negative ones included |
| Perlin.HashIndexPeriodic | src/perlin.rs:46-48 | the lookup index repeats with period 256 in `i` |
| Perlin.HashIndexAtMinusOne | src/perlin.rs:46-48 | at `i = -1` the masked index is 255 and, one cell on, wraps to 0 |
| Perlin.Xor3 | src/perlin.rs:46-49 | the XOR of three table entries in 0..255 is in 0..255 |
| Perlin.CornerIndex | src/perlin.rs:46-49 | every corner's index into the vector table is in bounds |
| Perlin.CornerRow | src/perlin.rs:45-50 | the innermost loop fills both `dk` corners with their table vectors |
| Perlin.RandomVectors | src/perlin.rs:15-18 | exactly 256 vectors, the `k`-th being the `k`-th draw |
| Perlin.Perlin.constructor | src/perlin.rs:14-30 | `Perlin::new`: 256 vectors and three shuffled tables, all valid |
| Perlin.Perlin.Corners | src/perlin.rs:40-52 | the 2x2x2 corner array of `noise`, each entry the vector its hashed index selects |
| Perlin.Abs | src/perlin.rs:71 | the absolute value is not negative and is `x` or `-x` |
| Perlin.OctavesBound | src/perlin.rs:65-69 | with noise bounded by `m`, the octave sum with halving weights is bounded by `2 * weight * m` |
| Perlin.Perlin.Turbulence | src/perlin.rs:60-72 | the loop adds `weight * noise(p)` while halving the weight and doubling the point, then returns the absolute value of that sum |
| Perlin.TurbulenceBounds | src/perlin.rs:60-72 | turbulence is not negative, at most `2m` for noise bounded by `m`, and 0 for depth 0 |
| Render.GroupStartClosed | src/render.rs:256-266 | after `i` groups the end is `i * group_size + min(i, remain)` |
| Render.GroupsCoverRows | src/render.rs:255-268 | after all `ranges` groups the end is exactly `rows` |
| Render.RangesPartitionRows | src/render.rs:255-268 | for `rows > ranges > 0`: exactly `ranges` ranges, the first from 0, each starting where the previous ended, the last ending at `rows`; range `i` has `rows/ranges` rows plus one exactly when `i < rows % ranges` |
| Render.RangesPerRow | src/render.rs:249-254 | no rows gives the single range 0..0; up to `ranges` rows gives one range `i..i+1` per row in order |
| Render.DivideIntoRanges | src/render.rs:247-271 | the loop over `start`/`end`/`remain` builds exactly the partition above |
| Render.OffsetInBounds | src/render.rs:141 | a pixel inside the image has all four of its bytes inside the buffer |
| Render.PaintAll | src/render.rs:95-98 | painting pixels in arrival order keeps the buffer length |
| Render.PaintedTouchesOnlyPixel | src/render.rs:140-146 | painting writes the three colour bytes at `4*(y*width + x)` and 0xFF after them, and changes no other byte |
| Render.PaintAllKeepsUncovered | src/render.rs:95-98 | a byte outside every arrived pixel's four bytes is unchanged |
| Render.OffsetAligned | src/render.rs:141 | `x*4 + y*width*4` is `4*(x + y*width)` |
| Render.PaintAllOpaque | src/render.rs:95-98 | after a drain, every arrived pixel's alpha byte is 0xFF |
| Render.ThreadedRenderer.constructor | src/render.rs:52-66 | the default renderer: 0x0 image, empty buffer, no pool, counter 0, one thread |
| Render.ThreadedRenderer.GetImageSize | src/render.rs:118-120 | `[width, height]` |
| Render.ThreadedRenderer.InitPixels | src/render.rs:133-138 | records width and height and allocates exactly `width*height*4` zero bytes; nothing else changes |
| Render.ThreadedRenderer.StartRender | src/render.rs:69-82 | no-op while a pool is held; otherwise counter 0, fresh zeroed buffer of the new size, pool held |
| Render.ThreadedRenderer.Send | src/render.rs:240 | a worker's pixel joins the end of the queue; nothing else changes |
| Render.ThreadedRenderer.SetPixel | src/render.rs:140-146 | the buffer becomes the painted buffer: RGB at the pixel's offset, 0xFF after, nothing else |
| Render.ThreadedRenderer.CheckProgress | src/render.rs:84-108 | drops the pool only if the render was finished on entry, drains every pending pixel and paints them in arrival order, raises the counter by the number drained, and returns true exactly when at least one was drained |
| Color.Clamp | src/color.rs:18-20 | `clamp(lo, hi)` lands in [lo, hi] and keeps values already inside |
| Color.QuantizeBounds | src/color.rs:18-20 | every channel is in 0..255, the integer part of `256 c` in the clamp range, 0 at or below 0 and 255 at or above 0.999 |
| Color.QuantizeMonotone | src/color.rs:18-20 | quantisation is monotone in the channel value |
| Color.LevelBounds | src/color.rs:13-20 | each written channel is in 0..255 |
| Color.LevelMonotone | src/color.rs:13-20 | a larger sample sum never gives a smaller channel value |
| Color.SqrtMonotone | src/color.rs:14-16 | the gamma-2 square root is monotone |
| Color.ScaleIsAverage | src/color.rs:13-14 | multiplying by `1/samples_per_pixel` is averaging over the samples |
| Color.Decimal | src/color.rs:22 | `{}` of an unsigned integer is a non-empty string of decimal digits |
| Color.DecimalRoundTrip | src/color.rs:22 | reading the digits back gives the number |
| Color.DecimalNoLeadingZero | src/color.rs:22 | the digits start with `0` only for the number 0 |
| Color.LineFields | src/color.rs:22 | the line is three numbers separated by single spaces and ended by a newline, and each field reads back as its number |
| Color.Writer.WriteAll | src/color.rs:22 | a write appends the whole text or fails and leaves the output unchanged |
| Color.WriteColor | src/color.rs:3-24 | on success, the output gains exactly the line of the three averaged, gamma-corrected, quantised channels; the writer's error is passed on with the output unchanged |

## Left out

- Floating point. Rounding, NaN, signed zero and `total_cmp` are not modelled; all arithmetic is on reals.
  - Divisions whose divisor could be zero are excluded by preconditions, for example in `Hittable.Defined`: a ray must cross a rectangle's plane; a sphere needs a non-zero radius and direction; a moving sphere needs `time1 != time0`.
  - The one exception is the AABB slab test. It keeps the infinite `1/0` outcome of a zero direction component, because the `aabb.rs` unit test relies on it.
- Aarect.Hit: a NaN plane-crossing `t` passes the source's guards; the precondition that the ray crosses the plane excludes it.
- Color.WriteColor: a negative average has a NaN square root in f64, which the cast turns into 0. The model writes 0 for it directly.
- Color.WriteColor: `samples_per_pixel == 0` is excluded by a precondition.
- Color.Writer.WriteAll: a write is all or nothing. The real `write!` may write part of the line before failing.
- Color: `color_to_pixel`, which `render.rs` calls, is not in this snapshot's `color.rs` and is not part of this model.
- Concurrency and I/O in `render.rs` are not modelled: `ray_color`, `render`, `render_with_threadpool`, `save_image`, `get_image`, `render_and_save`, `RenderConfig`, and the choice of thread count (`threads_to_use.clamp(1, num_cpus)`).
  - The channel is only the pending queue that `check_progress` drains.
  - The pool is only a flag.
- Render.ThreadedRenderer.StartRender: it takes the image size directly instead of a `SceneConfig`. It requires that pixels still queued fit the new size, since the source would index out of bounds when painting them.
- Render.ThreadedRenderer.SetPixel: it requires the pixel to lie in the image, as every pixel the workers send does. The source does not check this: an `x` past the width on any row but the last writes into the next row, and only an offset past the end of the buffer panics.
- Render: `usize`/`u32` widths are unbounded, so overflow of `width*height*4` and of `rows`/`ranges` arithmetic is not modelled.
- Render.ThreadedRenderer.GetPixels: `get_pixels`, `is_render_in_progress` and `is_render_finished` are plain reads of the state. They appear in the contracts of the methods above and have no row of their own.
- Vec3.AddAssign: `AddAssign`, `MulAssign`, `DivAssign` and `IndexMut` change a vector in place in the source. Here they are functions returning the new value. Vectors are values, so no aliasing is lost.
- Vec3: `length`, `Vec3::new`, `origin`, the accessors and `Ray::new`/`empty`/`origin`/`direction` are plain definitions without a contract of their own. `at` is covered by `Ray.AtShift` and `Ray.AtZero`; `Ray.AtComponents` and `Vec3.MulAssign` only read their definitions per axis and have no row.
- Perlin: the trilinear and Perlin interpolation and the value of `noise` itself are left out. Turbulence takes noise as a parameter, and `Perlin.OctavesBound` assumes a bound on it.
- Perlin.HashIndex: it is stated on 32-bit patterns. Its equality with the mathematical `(i + d) mod 256` on signed integers is not proved.
- Bvh.SortByKey: its contract does not state stability. The function is a stable insertion sort and Rust's `sort_by` is stable too, so both put objects with equal keys in the same order; only the proof of that is missing.
- Bvh.Build: it requires a non-empty slice. `BVHNode::new(&[])` falls into the `_` arm and recurses on the empty slice without end (bvh.rs:35-54), which a terminating function cannot express.
- Bvh.Build: the random axis is a parameter, looked up by the node's path in the tree. `from_hittable_list` is `Build` over the list's objects and is not separately modelled.
- Hittable.BoundingBox: `Sphere` and `HittableList` have no `bounding_box` in this snapshot, so they report none. `Bvh.BoxCompare` then uses 0.0 for them, as the source does.
- Hittable: random draws (the medium's `ln` of a uniform draw), `sqrt` and the BVH axis come from parameters, not a random number generator.
- Diagnostic output is omitted: the medium's debug printing (constant_medium.rs:70-72, 100-104), the "No bounding box" messages at bvh.rs:64 and bvh.rs:88, and "Render already in progress" at render.rs:71.
- Hittable.BvhHitCases: a node's box is tested with the corrected slab test (`Aabb.Hits`), not with `AABB::hit` as written, which bvh.rs:110 calls; see Findings. By `Aabb.HitsImpliesSlabsOverlap` the model descends into a node only where the source does, but the source also descends where each axis overlaps the query on its own. If a child lies outside the node box, as a sphere without a box does, the source can then report a hit that the model does not.
- Hittable.BvhHitInPlace: the same corrected node test as `Hittable.BvhHitCases`.
- Camera, materials, textures, scenes, GUI and command line are outside this model.

## Findings

| source | as written | input that shows it | evidently intended | confidence | as-written member | corrected member |
|---|---|---|---|---|---|---|
| src/aabb.rs:38-40 | `let t_min`/`let t_max` inside the loop shadow the parameters for one iteration only, so each axis is checked against the original interval and the per-axis intervals are never intersected; `BVHNode::hit` (bvh.rs:110) tests its node box with this function | box [0,1]^3, ray from (-1, 4, 0.5) along (1, -1, 0), interval [0, 10]: the x slab is crossed for t in [1, 2] and the y slab for t in [3, 4], each overlapping [0, 10], so the test reports a hit although the ray never enters the box | the running interval narrowed by every axis in turn (the textbook slab test), which reports a miss here, and which the model's BVH traversal uses | not executed | Aabb.HitAsWritten / Aabb.AsWrittenReportsMiss | Aabb.Hit / Aabb.HitsIsSound / Hittable.BvhHitCases |
