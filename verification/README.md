# rayvis raycaster, modelled in Dafny

A model of the core of *rayvis*, a small 2.5D raycaster written in Java on
libGDX. The window is 960 x 480. Its left half is a top-down view of a
480 x 480 map of wall segments. Its right half is a first-person view built
from one vertical slice per ray. The model covers four parts:

- **The camera** (`RayCamera`), in modules `Collision` and `RayCamera`:
  - the fan of rays across the field of view and each ray's angle from the
    viewing direction;
  - the normalisation of the absolute ray angle into [0, 360);
  - the parametric ray/segment intersection test (`den`, `t`, `u`);
  - the fold over the wall list that keeps the nearest hit, where the first
    wall in list order wins a tie;
  - the geometry of each first-person slice: its left edge, the
    fish-eye-corrected distance, the height `15000 / corrected` and the
    unclamped grey shade `1 - corrected / 500`.
- **The viewer** (`User`), in module `Movement`:
  - the per-axis clamp of `move`, which keeps each coordinate strictly
    between 1 and the map size minus 1;
  - the W, S, A, D moves of `update`, applied in that order, each from where
    the previous one left the viewer and all at the frame's starting
    direction;
  - the LEFT and RIGHT turns of 1.5 degrees, applied after the moves and
    independent of the frame time.
- **The sliders** (`Slider`), in module `Sliders`:
  - the marker position `percentage` and the `selected` flag;
  - the `click`, `drag` and `release` transitions;
  - `getValue`, which truncates the interpolated value with Java's `(int)`
    cast;
  - the two sliders of `Application` (field of view 20..120, ray count
    1..1000) and the input listener that feeds every mouse event to both.
- **The frame** (`Application.render`), in module `Game`: the viewer is
  updated first and the camera renders from the updated viewer, with the
  field of view and the ray count read off the sliders.
- **The map** (`Map`), in module `WorldMap`: seven walls, a closed boundary
  loop around [0, 479] x [0, 479] followed by three interior walls.

Supporting modules:

- `Geometry`: points, walls, direction vectors and squared distance.
- `JavaMath`: Java's truncating `int` division and the truncating, saturating
  `(int)` cast of a double.
- `Trig`: the transcendental functions. There is no real trigonometry in
  Dafny, so a `Trig` value carries `sin`, `cos`, `tan` and `atan` in degrees,
  plus `sqrt`, as arbitrary total functions on `real`. A lemma that needs a
  fact about them (`atan` is odd, `sqrt` is a monotone root) states that fact
  as a `requires`.
- `Arith`: small facts about real multiplication and division.
- `Application`: the window size and the slider ranges.
- `Options`: the `Option` type.

Doubles are modelled as `real`, and Java `int`s as unbounded `int` except
where truncation or saturation changes a result. The `null` collision is
`None`. State changes that Java makes in place (the viewer's position, a
slider's fields) are functions that return the new value.

Three behaviours of the Java code that the model keeps as written:

- **Slider value.** `getValue` truncates the interpolated value with an
  `(int)` cast. The ray slider starts half way along 1..1000, at 500.5, and
  so reads 500.
- **Shade.** `drawRay` does not clamp the shade `1 - corrected / 500` to
  [0, 1]. The model proves it goes negative beyond distance 500
  (`RayCamera.ShadeFalls`).
- **Zero corrected distance.** `drawRay` divides 15000 by the corrected
  distance with no guard. When that distance is 0 the height is infinite,
  and the model gives the slice no rectangle (`RayCamera.ColumnFor` returns
  `None` in exactly that case).

## Model

| member | source | states |
|---|---|---|
| Collision.HitLiesOnRay | rayvis/src/main/java/rayvis/core/RayCamera.java:157-165 | the crossing point computed from the wall's parameter `t` is the same point as the one `u` steps along the ray, so the two formulas describe one intersection |
| Collision.Scan | rayvis/src/main/java/rayvis/core/RayCamera.java:132-175 | the loop's answer is its starting point or the crossing of some wall in the list; once it holds a point it keeps one, and a list that no wall crosses leaves the starting point unchanged |
| Collision.NearestHit | rayvis/src/main/java/rayvis/core/RayCamera.java:132-177 | the result is absent exactly when no wall has `den != 0`, `0 < t < 1` and `u > 0`; when present it is the crossing point of a hit wall that is the first nearest one in list order |
| Collision.ScanAnswers | rayvis/src/main/java/rayvis/core/RayCamera.java:132-175 | for any per-wall test and any non-negative distance, the loop started with no point and distance -1 returns nothing iff no wall is crossed, and otherwise the crossing of a first nearest wall |
| Collision.ParallelWallIgnored | rayvis/src/main/java/rayvis/core/RayCamera.java:149-155 | inserting a wall parallel to the ray anywhere in the list never changes the returned point |
| Collision.MissedWallIgnored | rayvis/src/main/java/rayvis/core/RayCamera.java:135-175 | a wall the ray does not cross can be removed from anywhere in the list without changing the loop's result, whatever state the loop is in |
| Collision.NearestHitOnWallAndRay | rayvis/src/main/java/rayvis/core/RayCamera.java:144-165 | a returned point lies strictly inside some wall (`0 < t < 1`) and strictly ahead on the ray (`position + u * dir` with `u > 0`) |
| Collision.NearestHitIsFirstNearest | rayvis/src/main/java/rayvis/core/RayCamera.java:167-173 | the returned hit is no farther than any other hit, and every hit on a wall earlier in the list is strictly farther, so ties go to the first wall |
| Collision.NearestHitBySqrtAgrees | rayvis/src/main/java/rayvis/core/RayCamera.java:167-170 | comparing `sqrt` of the squared distances, as `getCollision` does, returns the same point as comparing squared distances, for any non-negative strictly increasing `sqrt` |
| JavaMath.IntHalf | rayvis/src/main/java/rayvis/core/RayCamera.java:39 | `FOV / 2` on an `int` truncates toward zero: the remainder is 0 or 1 for a non-negative FOV and 0 or -1 for a negative one |
| JavaMath.IntCast | rayvis/src/main/java/rayvis/core/Slider.java:67 | the `(int)` cast is within one of its argument and no larger in magnitude, and saturates at the 32-bit bounds |
| RayCamera.HalfFov | rayvis/src/main/java/rayvis/core/RayCamera.java:39 | the half field of view passed to `tan` is a whole number of degrees; for a non-negative FOV it is at most FOV/2 and within one of it, and an odd FOV loses half a degree |
| RayCamera.AngleFromCamera | rayvis/src/main/java/rayvis/core/RayCamera.java:39-50 | the angle is `atan` of the offset from the view's centre times `tan(FOV / 2) / 240`, or `atan(0)` when that `tan` is 0; the centre looks straight ahead and the left and right edges of the view look at `atan(-tan(FOV / 2))` and `atan(tan(FOV / 2))` |
| RayCamera.NormalizeAngle | rayvis/src/main/java/rayvis/core/RayCamera.java:53-57 | the normalised angle lies in [0, 360) and differs from the input by a whole multiple of 360 |
| RayCamera.NormalizeIdempotent | rayvis/src/main/java/rayvis/core/RayCamera.java:53-57 | an angle already in [0, 360) is returned unchanged, so normalising twice is normalising once |
| RayCamera.Render | rayvis/src/main/java/rayvis/core/RayCamera.java:43-64 | the loop visits each index 0..n-1 exactly once, in order, and casts no ray when the count is below 1; every ray angle lies in [0, 360) |
| RayCamera.CastRay | rayvis/src/main/java/rayvis/core/RayCamera.java:45-63 | the ray's angle from the camera is the `atan` of its slot-centre offset on the projection plane; its absolute angle is the viewing direction plus that angle, brought into [0, 360) modulo 360; its hit is `getCollision` along that absolute angle, absent exactly when no wall is hit and otherwise the crossing with the first nearest hit wall; a slice is drawn exactly when there is a hit, and it is `drawRay` of that hit at the ray's own slot and angle |
| RayCamera.GetCollision | rayvis/src/main/java/rayvis/core/RayCamera.java:124-128 | the collision is absent exactly when no wall is hit along the angle's direction vector, and otherwise the crossing with the first nearest hit wall |
| RayCamera.RayDirection | rayvis/src/main/java/rayvis/core/RayCamera.java:127-128 | 0 degrees points along +y, 90 along +x and 180 along -y (given those values of `cos` and `sin`), and the vector has length 1 when `cos` and `sin` lie on the unit circle |
| RayCamera.WidthTimesRays | rayvis/src/main/java/rayvis/core/RayCamera.java:40 | the slot width is positive and n slots fill the 480-pixel view exactly |
| RayCamera.OffsetsInsideAndIncreasing | rayvis/src/main/java/rayvis/core/RayCamera.java:40-47 | every ray meets the projection plane strictly between 0 and 480, and the offsets increase strictly with the ray index |
| RayCamera.OffsetsSymmetric | rayvis/src/main/java/rayvis/core/RayCamera.java:47-50 | rays i and n-1-i meet the plane at mirror-image positions about its centre at 240 |
| RayCamera.MiddleRayCentred | rayvis/src/main/java/rayvis/core/RayCamera.java:47-50 | with an odd ray count the middle ray meets the plane exactly at its centre, 240 |
| RayCamera.AnglesAntisymmetric | rayvis/src/main/java/rayvis/core/RayCamera.java:39-50 | when `atan` is odd, rays i and n-1-i have opposite angles from the camera, and with an odd count the middle ray looks straight ahead |
| RayCamera.SlicesTile | rayvis/src/main/java/rayvis/core/RayCamera.java:94 | the first-person slices tile the view without gap or overlap: each ends where the next begins, the first starts at x = 480 and the last ends at x = 960 |
| RayCamera.ColumnFor | rayvis/src/main/java/rayvis/core/RayCamera.java:102-109 | a rectangle exists exactly when the corrected distance is non-zero; its height times the distance is 15000 and it is centred on the window's middle row |
| RayCamera.DrawRay | rayvis/src/main/java/rayvis/core/RayCamera.java:94-109 | the slice starts at its ray's left edge and is one slot wide; its distance is `sqrt` of the squared Euclidean distance to the hit (positive between two different points when `sqrt` is a root); the corrected distance is that distance times `cos` of the absolute angle from the camera; the shade is `Shade` of the corrected distance; a rectangle exists exactly when the corrected distance is non-zero, with height times corrected distance equal to 15000 |
| RayCamera.Shade | rayvis/src/main/java/rayvis/core/RayCamera.java:106-107 | the unclamped grey level is at most 1 exactly for a non-negative corrected distance and at least 0 exactly up to 500; it is `(500 - corrected) / 500` |
| RayCamera.FisheyeCorrection | rayvis/src/main/java/rayvis/core/RayCamera.java:100-101 | straight ahead the corrected distance is the true Euclidean distance; off centre, with `cos` strictly between 0 and 1, it is positive and strictly shorter than the true distance |
| RayCamera.SliceSymmetricInAngle | rayvis/src/main/java/rayvis/core/RayCamera.java:101 | a ray a degrees left of centre produces the same slice as one a degrees right of centre |
| RayCamera.ShadeFalls | rayvis/src/main/java/rayvis/core/RayCamera.java:106-107 | the shade falls strictly with distance, is white at 0 and black at 500, and is not clamped: negative beyond 500 and above 1 for a negative distance |
| RayCamera.HeightFalls | rayvis/src/main/java/rayvis/core/RayCamera.java:102 | nearer walls are drawn strictly taller |
| RayCamera.SingleWallHit | rayvis/src/main/java/rayvis/core/RayCamera.java:132-177 | with a single wall in the map, a ray that hits it returns exactly its crossing point |
| RayCamera.StraightAheadHit | rayvis/src/main/java/rayvis/core/RayCamera.java:139-173 | a ray from (0, 50) along +x hits the wall x = 100, 0 <= y <= 100, at its midpoint (100, 50) |
| RayCamera.EmptyMapNoHits | rayvis/src/main/java/rayvis/core/RayCamera.java:59-63 | a map without walls gives every ray neither a hit nor a slice |
| RayCamera.CornerRayEscapes | rayvis/src/main/java/rayvis/core/RayCamera.java:161 | on the bare boundary, a ray aimed exactly at the corner (0, 0) hits nothing, because a hit must lie strictly between a wall's endpoints |
| Movement.NewUser | rayvis/src/main/java/rayvis/core/User.java:22-25 | the viewer starts at (300, 200) facing 0 degrees, strictly inside the clamp region of the map |
| Movement.AxisStep | rayvis/src/main/java/rayvis/core/User.java:100-106 | a coordinate takes its target exactly when the target is strictly between 1 and the size minus 1, and otherwise keeps its old value, so a coordinate inside that open interval never leaves it |
| Movement.Target | rayvis/src/main/java/rayvis/core/User.java:94-98 | a zero frame time targets the current position, and with `cos` and `sin` on the unit circle the target lies exactly `speed * deltaTime` away |
| Movement.Move | rayvis/src/main/java/rayvis/core/User.java:93-107 | x and y are clamped independently, the direction never changes, and a viewer inside the clamp region stays inside |
| Movement.MoveAll | rayvis/src/main/java/rayvis/core/User.java:40-54 | a run of moves keeps the direction and keeps the viewer inside the clamp region |
| Movement.MoveAngles | rayvis/src/main/java/rayvis/core/User.java:40-54 | one move angle per held key among W, S, A and D, in that order: the i-th angle plus the starting direction is the i-th of the held keys' offsets |
| Movement.KeyOffsets | rayvis/src/main/java/rayvis/core/User.java:40-54 | the held keys' offsets, one per held key: W gives 90, S -90, A 180 and D 0, each present exactly when its key is held, in W, S, A, D order |
| Movement.ForwardThenLeft | rayvis/src/main/java/rayvis/core/User.java:40-54 | with W and A held, a frame moves forward first and then left, both at the frame's starting direction |
| Movement.Turn | rayvis/src/main/java/rayvis/core/User.java:56-62 | LEFT alone turns left, RIGHT alone turns right, and both or neither leave the direction unchanged |
| Movement.Update | rayvis/src/main/java/rayvis/core/User.java:39-63 | a frame keeps the viewer inside the clamp region, and without turn keys it keeps the direction |
| Movement.MovesCompose | rayvis/src/main/java/rayvis/core/User.java:40-54 | running two lists of moves one after the other equals running their concatenation, so each move starts where the previous one ended |
| Movement.TurnsAfterMoves | rayvis/src/main/java/rayvis/core/User.java:39-63 | the turn keys never change where the viewer ends up in a frame; the direction changes by exactly 1.5 per turn key, whatever the frame time |
| Movement.ForwardBackCancel | rayvis/src/main/java/rayvis/core/User.java:40-46 | with W and S both held and neither move stopped at an edge, the viewer ends where it started |
| Movement.Play | rayvis/src/main/java/rayvis/core/Application.java:84-86 | over any run of frames the viewer never leaves the clamp region once inside it |
| Movement.PlaySnoc | rayvis/src/main/java/rayvis/core/Application.java:84-86 | a run of frames followed by one more is that run, then that frame's `update` |
| Movement.AlwaysInside | rayvis/src/main/java/rayvis/core/User.java:22-25 | from the start of the application, whatever the keys and frame times, the viewer stays strictly inside the map |
| Sliders.NewSlider | rayvis/src/main/java/rayvis/core/Slider.java:19-32 | a new slider has its marker half way along and is not selected |
| Sliders.Interpolated | rayvis/src/main/java/rayvis/core/Slider.java:67 | the marker's value before the cast is the minimum at the left end, the maximum at the right end, and the middle of the range half way along |
| Sliders.Value | rayvis/src/main/java/rayvis/core/Slider.java:66-68 | with the marker in the box and min <= max within 32-bit bounds, the value lies in [min, max], and for a non-negative range it is the whole part of the interpolated value |
| Sliders.InRange | rayvis/src/main/java/rayvis/core/Slider.java:67 | with the marker in the box and min <= max, the interpolated value lies between the minimum and the maximum |
| Sliders.Click | rayvis/src/main/java/rayvis/core/Slider.java:78-85 | a click strictly inside the box selects the slider and puts the marker under the click, strictly inside (0, 1); a click anywhere else changes nothing |
| Sliders.Drag | rayvis/src/main/java/rayvis/core/Slider.java:104-109 | an unselected slider ignores the drag; a selected one puts its marker under the mouse, held to the box, at 0 left of it and 1 right of it |
| Sliders.Release | rayvis/src/main/java/rayvis/core/Slider.java:92-94 | the slider is deselected and nothing else changes |
| Sliders.ApplyAll | rayvis/src/main/java/rayvis/core/Slider.java:78-109 | the marker stays in [0, 1] across any sequence of clicks, drags and releases, and the box and range never change |
| Sliders.ApplyAllSnoc | rayvis/src/main/java/rayvis/core/Slider.java:78-109 | a run of events followed by one more is that run, then the one event's transition |
| Sliders.FovSlider | rayvis/src/main/java/rayvis/core/Application.java:65 | the field-of-view slider starts valid with range 20..120 |
| Sliders.RaysSlider | rayvis/src/main/java/rayvis/core/Application.java:66 | the ray-count slider starts valid with range 1..1000 |
| Sliders.ToSlider | rayvis/src/main/java/rayvis/core/Application.java:113-132 | a touch-down becomes a press, a drag a move and a touch-up a release, and no other way round; presses and moves keep x and flip y so that it grows upwards from the window's bottom |
| Sliders.Dispatch | rayvis/src/main/java/rayvis/core/Application.java:113-132 | feeding every event to both sliders keeps both markers in their boxes and both ranges unchanged |
| Sliders.DispatchRoutes | rayvis/src/main/java/rayvis/core/Application.java:113-132 | a touch-down clicks both sliders, a drag drags both and a touch-up releases both, each at the screen point with y flipped to `480 - screenY` |
| Sliders.DispatchEachSlider | rayvis/src/main/java/rayvis/core/Application.java:113-132 | every event reaches both sliders and neither slider's state depends on the other's: each ends where its own run of the translated events takes it |
| Sliders.InitialValues | rayvis/src/main/java/rayvis/core/Application.java:65-66 | before any input the field of view reads 70 and the ray count 500 |
| Sliders.ValuesStayInRange | rayvis/src/main/java/rayvis/core/Application.java:25-26 | whatever the mouse does, the field of view stays in [20, 120] and the ray count in [1, 1000], so every frame casts at least one ray |
| Sliders.ReleaseIdempotent | rayvis/src/main/java/rayvis/core/Slider.java:92-94 | releasing twice is the same as releasing once |
| Sliders.DragAfterClickStays | rayvis/src/main/java/rayvis/core/Slider.java:78-109 | a drag to the point just clicked leaves the marker where the click put it |
| Game.RenderFrame | rayvis/src/main/java/rayvis/core/Application.java:84-86 | a frame first updates the viewer (keeping it inside the clamp region) and then casts every ray from the updated position and direction, with the sliders' field of view and ray count; with a valid ray slider it casts exactly the slider's count of rays, at least one |
| Game.ForwardAlongCentreRay | rayvis/src/main/java/rayvis/core/User.java:94-95 | the W move's target is `Speed * deltaTime` along the direction vector the camera uses for a ray at the viewer's own direction, so forward is where the centre of the view looks |
| WorldMap.GetWidth | rayvis/src/main/java/rayvis/core/Map.java:39-41 | `getWidth` is 480 and agrees with the map's private `WIDTH` constant |
| WorldMap.GetHeight | rayvis/src/main/java/rayvis/core/Map.java:46-48 | `getHeight` is 480 and agrees with the map's private `HEIGHT` constant |
| WorldMap.Boundary | rayvis/src/main/java/rayvis/core/Map.java:18-21 | four walls along x = 0, y = 479, x = 479 and y = 0, each ending where the next begins, the last ending at the first one's start |
| WorldMap.NewMap | rayvis/src/main/java/rayvis/core/Map.java:14-27 | exactly seven walls, the first four being the closed boundary; no wall is degenerate and every endpoint lies in [0, 479] x [0, 479] |
| WorldMap.WallsPlaced | rayvis/src/main/java/rayvis/core/Map.java:14-27 | every wall of the constructed map has distinct endpoints, both inside [0, 479] x [0, 479] |

## Left out

- Drawing: every `ShapeRenderer`, `Color`, `SpriteBatch` and `BitmapFont` call is a foreign graphics API. The model keeps the numbers drawn (slice edge, height, shade) and not the drawing. This includes the top-down view's lines and circle and `Slider.draw`.
- IEEE-754 doubles: rounding, NaN and infinities are not modelled; doubles are `real`. The two non-finite cases that change behaviour are written out: a zero corrected distance gives no rectangle, and `tan(FOV / 2) == 0` gives an infinite plane distance and so an angle of `atan(0)`. A `tan` that overflows to infinity is not modelled. The float casts of the colour and rectangle are not modelled.
- Trigonometry and `sqrt` are parameters (`Trig`), not computed. `toRadians` is folded into degree-based functions. Facts about them (`atan` odd, `sqrt` a monotone root, the sign of `cos` and `sin` over half a turn) appear only as the `requires` of the lemmas that need them.
- Collision.NearestHit: compares squared distances instead of `sqrt` of them; Collision.NearestHitBySqrtAgrees proves that `getCollision`'s `sqrt` comparison returns the same point for any monotone root.
- The camera's plane distance uses `Gdx.graphics.getWidth()`, the live window width. The window is created 960 wide and not resizable, so the model uses the constant 960, which makes the quarter width 240.
- `Application.WIDTH` and `HEIGHT` are mutable static fields that nothing reassigns; the model uses them as constants.
- Keyboard polling (`Gdx.input.isKeyPressed`) becomes an explicit `Keys` record for each frame. The frame time from `System.nanoTime` becomes a `deltaTime` parameter.
- The libGDX lifecycle (`main`, `create`, the render loop and the input-processor registration) is not modelled beyond the order of `update` and `render` in a frame (`Game.RenderFrame`) and the listener's dispatch of events to the two sliders.
- Sliders.Click: the `int` sums and differences `this.x + WIDTH` and `x - this.x` are unbounded in the model, so a 32-bit overflow for coordinates near the `int` limits is not modelled. The same holds for `HEIGHT - screenY` in the input listener.
- Sliders.Value: the in-range guarantee is stated for ranges within 32-bit bounds, and the whole-part statement for non-negative ranges. For a negative interpolated value the cast truncates toward zero; `JavaMath.IntCast` states that case.
- `Point` and `Wall` have no behaviour of their own; they are datatypes only.
- WorldMap.Interior: only the number of interior walls is stated on it; their placement within the arena is stated on `WorldMap.NewMap`.
