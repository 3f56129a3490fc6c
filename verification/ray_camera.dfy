/**
 One frame of the camera (`render` and `drawRay`): the fan of rays across the
 field of view, the normalisation of each ray's angle, its nearest wall hit,
 and the first-person wall slice drawn for each ray that hits.
 */
module RayCamera {
  import opened Options
  import opened Geometry
  import opened JavaMath
  import opened Arith
  import opened Trig
  import opened Collision
  import Application
  import WorldMap

  /** The factor turning a corrected distance into a slice height. */
  const HeightScale: real := 15000.0
  /** The corrected distance at which the shade reaches black. */
  const ShadeDistance: real := 500.0

  /** Half the first-person view's width: its centre column, measured from its left edge. */
  const HalfView: real := (Application.ScreenWidth / 4) as real

  // ---- Angles --------------------------------------------------------------

  /**
   The ray angle brought into [0, 360): 360 is added while the angle is
   negative, then the remainder after division by 360 is taken.
   */
  function NormalizeAngle(angle: real): (r: real)
    ensures 0.0 <= r < 360.0
    ensures IsWhole((r - angle) / 360.0)
    decreases if angle < 0.0 then (-angle).Floor + 1 else 0
  {
    if angle < 0.0 then
      var r := NormalizeAngle(angle + 360.0);
      ShiftWhole((r - (angle + 360.0)) / 360.0);
      assert (r - angle) / 360.0 == (r - (angle + 360.0)) / 360.0 + 1.0;
      r
    else
      Remainder360(angle)
  }

  /** Java's `%` on a non-negative double: what is left after taking out whole multiples of 360. */
  function Remainder360(angle: real): (r: real)
    requires 0.0 <= angle
    ensures 0.0 <= r < 360.0
    ensures IsWhole((r - angle) / 360.0)
  {
    var q := (angle / 360.0).Floor;
    assert (angle - 360.0 * q as real - angle) / 360.0 == -(q as real);
    assert (-(q as real)).Floor == -q;
    angle - 360.0 * q as real
  }

  lemma ShiftWhole(x: real)
    requires IsWhole(x)
    ensures IsWhole(x + 1.0)
  {
    assert (x + 1.0).Floor == x.Floor + 1;
  }

  /**
   The direction vector of a ray: 0 degrees points along +y and angles grow
   clockwise, so 90 degrees points along +x; with `cos` and `sin` on the
   unit circle the vector has length 1.
   */
  function RayDirection(trig: Trig, rayAngle: real): (v: Vector)
    ensures rayAngle == 0.0 && trig.cosDeg(90.0) == 0.0 && trig.sinDeg(90.0) == 1.0 ==> v == Vector(0.0, 1.0)
    ensures rayAngle == 90.0 && trig.cosDeg(0.0) == 1.0 && trig.sinDeg(0.0) == 0.0 ==> v == Vector(1.0, 0.0)
    ensures rayAngle == 180.0 && trig.cosDeg(-90.0) == 0.0 && trig.sinDeg(-90.0) == -1.0 ==> v == Vector(0.0, -1.0)
    ensures var a := -rayAngle + 90.0;
            trig.cosDeg(a) * trig.cosDeg(a) + trig.sinDeg(a) * trig.sinDeg(a) == 1.0 ==>
              v.dx * v.dx + v.dy * v.dy == 1.0
  {
    Vector(trig.cosDeg(-rayAngle + 90.0), trig.sinDeg(-rayAngle + 90.0))
  }

  /** The half field of view fed to `tan`: `FOV / 2` on an `int`, so an odd FOV loses its half degree. */
  function HalfFov(fov: int): (h: real)
    ensures IsWhole(h)
    ensures 0 <= fov ==> h <= fov as real / 2.0 < h + 1.0
    ensures 0 <= fov && fov % 2 == 1 ==> h == (fov - 1) as real / 2.0
  {
    var q := IntHalf(fov);
    assert (q as real).Floor == q;
    q as real
  }

  // ---- The ray fan -----------------------------------------------------------

  /** The horizontal span, in pixels, of one ray's slice in the first-person view. */
  function WidthPerRay(m: WorldMap.Map, amountOfRays: int): real
    requires 1 <= amountOfRays
  {
    WorldMap.GetWidth(m) as real / amountOfRays as real
  }

  /** Where ray `rayIndex` meets the projection plane: the middle of its slot. */
  function ScreenOffset(rayIndex: int, widthPerRay: real): real {
    rayIndex as real * widthPerRay + widthPerRay * 0.5
  }

  /**
   The ray's angle from the viewing direction, from its offset on a plane at
   `HalfView / tan(FOV / 2)` from the eye. When `tan` is 0 that distance is an
   infinite double and the quotient is 0. Otherwise the ray's `tan` is its
   offset from the centre scaled by `tan(FOV / 2) / HalfView`: the centre
   looks straight ahead and the view's two edges sit at `-FOV / 2` and `FOV / 2`.
   */
  function AngleFromCamera(trig: Trig, fov: int, offset: real): (a: real)
    ensures trig.tanDeg(HalfFov(fov)) == 0.0 ==> a == trig.atanDeg(0.0)
    ensures var tanHalf := trig.tanDeg(HalfFov(fov));
            tanHalf != 0.0 ==> a == trig.atanDeg((offset - HalfView) * tanHalf / HalfView)
    ensures offset == HalfView ==> a == trig.atanDeg(0.0)
    ensures offset == 0.0 ==> a == trig.atanDeg(-trig.tanDeg(HalfFov(fov)))
    ensures offset == 2.0 * HalfView ==> a == trig.atanDeg(trig.tanDeg(HalfFov(fov)))
  {
    if trig.tanDeg(HalfFov(fov)) == 0.0 then trig.atanDeg(0.0)
    else
      assert && (offset - HalfView) / (HalfView / trig.tanDeg(HalfFov(fov)))
                == (offset - HalfView) * trig.tanDeg(HalfFov(fov)) / HalfView
             && (offset == 0.0 ==> (offset - HalfView) * trig.tanDeg(HalfFov(fov)) / HalfView
                                   == -trig.tanDeg(HalfFov(fov)))
             && (offset == 2.0 * HalfView ==> (offset - HalfView) * trig.tanDeg(HalfFov(fov)) / HalfView
                                              == trig.tanDeg(HalfFov(fov))) by {
        PlaneRatio(offset, trig.tanDeg(HalfFov(fov)));
      }
      trig.atanDeg((offset - HalfView) / (HalfView / trig.tanDeg(HalfFov(fov))))
  }

  /** The ratio of `AngleFromCamera` without the nested quotient, and its values at the view's edges. */
  lemma PlaneRatio(offset: real, t: real)
    requires t != 0.0
    ensures (offset - HalfView) / (HalfView / t) == (offset - HalfView) * t / HalfView
    ensures offset == 0.0 ==> (offset - HalfView) * t / HalfView == -t
    ensures offset == 2.0 * HalfView ==> (offset - HalfView) * t / HalfView == t
  {
    assert HalfView == 240.0;
    DivByQuotient(offset - HalfView, HalfView, t);
  }

  /** The left edge of slice `rayIndex` in the first-person view, the right half of the window. */
  function LeftX(rayIndex: int, widthPerRay: real): real {
    (Application.ScreenWidth / 2) as real + rayIndex as real * widthPerRay
  }

  // ---- Slices ----------------------------------------------------------------

  /** The rectangle of a wall slice: its lower edge and its height. */
  datatype Column = Column(bottom: real, height: real)

  /**
   What `drawRay` computes for one hit: the slice's left edge and width, the
   true and the corrected distance, the grey shade, and the rectangle, which
   is absent when the corrected distance is 0 and the height is not finite.
   */
  datatype Slice = Slice(leftX: real, width: real, distance: real, corrected: real,
                         shade: real, column: Option<Column>)

  /**
   The grey level of a slice, not clamped to [0, 1]: it stays at most 1 exactly
   for non-negative distances and at least 0 exactly up to `ShadeDistance`.
   */
  function Shade(corrected: real): (r: real)
    ensures r <= 1.0 <==> 0.0 <= corrected
    ensures 0.0 <= r <==> corrected <= ShadeDistance
    ensures r * ShadeDistance == ShadeDistance - corrected
  {
    1.0 - corrected / ShadeDistance
  }

  /**
   The slice rectangle for a corrected distance: its height is inversely
   proportional to the distance and it is centred on the window's middle row.
   */
  function ColumnFor(corrected: real): (c: Option<Column>)
    ensures c.Some? <==> corrected != 0.0
    ensures c.Some? ==> c.value.height * corrected == HeightScale
    ensures c.Some? ==> c.value.bottom + c.value.height / 2.0 == (Application.ScreenHeight / 2) as real
  {
    if corrected == 0.0 then None
    else
      DivMul(HeightScale, corrected);
      var height := HeightScale / corrected;
      Some(Column((Application.ScreenHeight / 2) as real - height / 2.0, height))
  }

  /** The wall slice for a ray that hit `collision`. */
  function DrawRay(trig: Trig, position: Point, collision: Point, rayIndex: int,
                   widthPerRay: real, angleFromCamera: real): (s: Slice)
    ensures s.leftX == LeftX(rayIndex, widthPerRay) && s.width == widthPerRay
    ensures s.distance == trig.sqrt(SqDist(position, collision))
    ensures IsSqrtOf(s.distance, SqDist(position, collision)) && position != collision ==> 0.0 < s.distance
    ensures s.corrected == s.distance * trig.cosDeg(Abs(angleFromCamera))
    ensures s.shade == Shade(s.corrected)
    ensures s.column == ColumnFor(s.corrected)
    ensures s.column.Some? <==> s.corrected != 0.0
    ensures s.column.Some? ==> s.column.value.height * s.corrected == HeightScale
  {
    DistancePositive(trig.sqrt(SqDist(position, collision)), position, collision);
    var distance := trig.sqrt(SqDist(position, collision));
    var corrected := distance * trig.cosDeg(Abs(angleFromCamera));
    Slice(LeftX(rayIndex, widthPerRay), widthPerRay, distance, corrected, Shade(corrected), ColumnFor(corrected))
  }

  /** A root of the squared distance between two different points is positive. */
  lemma DistancePositive(root: real, a: Point, b: Point)
    ensures IsSqrtOf(root, SqDist(a, b)) && a != b ==> 0.0 < root
  {
    if IsSqrtOf(root, SqDist(a, b)) && a != b {
      SqDistPositive(a, b);
      RootPos(root, SqDist(a, b));
    }
  }

  // ---- One frame -------------------------------------------------------------

  /** Everything the frame computes for one ray. */
  datatype Ray = Ray(index: int, angleFromCamera: real, rayAngle: real,
                     hit: Option<Point>, slice: Option<Slice>)

  /**
   The collision of a ray cast at absolute angle `rayAngle` (`getCollision`):
   none exactly when the ray along that angle's direction hits no wall, and
   otherwise the crossing with the first of the nearest walls it hits.
   */
  function GetCollision(trig: Trig, m: WorldMap.Map, position: Point, rayAngle: real): (r: Option<Point>)
    ensures var dir := RayDirection(trig, rayAngle);
            r.None? <==> forall j | 0 <= j < |m.walls| :: !Hits(m.walls[j], position, dir)
    ensures var dir := RayDirection(trig, rayAngle);
            r.Some? ==>
              exists k :: FirstNearest(CrossingOf(position, dir), m.walls, DistanceFrom(position), k)
                          && Hits(m.walls[k], position, dir)
                          && r.value == HitPoint(m.walls[k], position, dir)
  {
    NearestHit(m.walls, position, RayDirection(trig, rayAngle))
  }

  /** Ray `rayIndex` of a frame with `amountOfRays` rays. */
  function CastRay(trig: Trig, m: WorldMap.Map, position: Point, direction: real, fov: int,
                   amountOfRays: int, rayIndex: int): (ray: Ray)
    requires 1 <= amountOfRays
    ensures ray.index == rayIndex
    ensures 0.0 <= ray.rayAngle < 360.0
    ensures IsWhole((ray.rayAngle - (direction + ray.angleFromCamera)) / 360.0)
    ensures ray.angleFromCamera == AngleFromCamera(trig, fov, ScreenOffset(rayIndex, WidthPerRay(m, amountOfRays)))
    ensures ray.hit == GetCollision(trig, m, position, ray.rayAngle)
    ensures var dir := RayDirection(trig, ray.rayAngle);
            ray.hit.None? <==> forall j | 0 <= j < |m.walls| :: !Hits(m.walls[j], position, dir)
    ensures var dir := RayDirection(trig, ray.rayAngle);
            ray.hit.Some? ==>
              exists k :: FirstNearest(CrossingOf(position, dir), m.walls, DistanceFrom(position), k)
                          && Hits(m.walls[k], position, dir)
                          && ray.hit.value == HitPoint(m.walls[k], position, dir)
    ensures ray.slice.Some? <==> ray.hit.Some?
    ensures ray.slice.Some? ==>
              ray.slice.value == DrawRay(trig, position, ray.hit.value, rayIndex,
                                         WidthPerRay(m, amountOfRays), ray.angleFromCamera)
    ensures ray.slice.Some? ==> ray.slice.value.leftX == LeftX(rayIndex, WidthPerRay(m, amountOfRays))
  {
    var widthPerRay := WidthPerRay(m, amountOfRays);
    var offset := ScreenOffset(rayIndex, widthPerRay);
    var angleFromCamera := AngleFromCamera(trig, fov, offset);
    var rayAngle := NormalizeAngle(direction + angleFromCamera);
    var collision := GetCollision(trig, m, position, rayAngle);
    var slice :=
      match collision
      case Some(p) => Some(DrawRay(trig, position, p, rayIndex, widthPerRay, angleFromCamera))
      case None => None;
    Ray(rayIndex, angleFromCamera, rayAngle, collision, slice)
  }

  /** The loop of `render`: one ray per index, left to right. */
  method Render(trig: Trig, m: WorldMap.Map, position: Point, direction: real, fov: int, amountOfRays: int)
    returns (rays: seq<Ray>)
    ensures |rays| == if amountOfRays < 1 then 0 else amountOfRays
    ensures forall i | 0 <= i < |rays| :: rays[i].index == i && 0.0 <= rays[i].rayAngle < 360.0
    ensures forall i | 0 <= i < |rays| :: rays[i] == CastRay(trig, m, position, direction, fov, amountOfRays, i)
  {
    rays := [];
    var rayIndex := 0;
    while rayIndex < amountOfRays
      invariant 0 <= rayIndex <= if amountOfRays < 1 then 0 else amountOfRays
      invariant |rays| == rayIndex
      invariant forall i | 0 <= i < rayIndex ::
                  1 <= amountOfRays && rays[i] == CastRay(trig, m, position, direction, fov, amountOfRays, i)
    {
      var ray := CastRay(trig, m, position, direction, fov, amountOfRays, rayIndex);
      forall i | 0 <= i < rayIndex + 1
        ensures (rays + [ray])[i] == CastRay(trig, m, position, direction, fov, amountOfRays, i)
      {
        if i < rayIndex {
          assert (rays + [ray])[i] == rays[i];
        }
      }
      rays := rays + [ray];
      rayIndex := rayIndex + 1;
    }
  }

  // ---- Properties of the fan -------------------------------------------------

  lemma WidthTimesRays(m: WorldMap.Map, amountOfRays: int)
    requires 1 <= amountOfRays
    ensures 0.0 < WidthPerRay(m, amountOfRays)
    ensures amountOfRays as real * WidthPerRay(m, amountOfRays) == 480.0
  {
    DivMul(480.0, amountOfRays as real);
    DivPos(480.0, amountOfRays as real);
  }

  /**
   The slices tile the first-person view: each ends where the next begins,
   the first starts at the view's left edge (x = 480) and the last ends at
   the window's right edge (x = 960).
   */
  lemma SlicesTile(m: WorldMap.Map, amountOfRays: int, rayIndex: int)
    requires 1 <= amountOfRays
    ensures var w := WidthPerRay(m, amountOfRays);
            LeftX(rayIndex, w) + w == LeftX(rayIndex + 1, w)
    ensures LeftX(0, WidthPerRay(m, amountOfRays)) == 480.0
    ensures LeftX(amountOfRays, WidthPerRay(m, amountOfRays)) == 960.0
  {
    var w := WidthPerRay(m, amountOfRays);
    WidthTimesRays(m, amountOfRays);
    assert (rayIndex + 1) as real * w == rayIndex as real * w + w;
  }

  /** Every ray of the fan meets the projection plane strictly inside the view, left to right. */
  lemma OffsetsInsideAndIncreasing(m: WorldMap.Map, amountOfRays: int, rayIndex: int)
    requires 1 <= amountOfRays && 0 <= rayIndex < amountOfRays
    ensures var w := WidthPerRay(m, amountOfRays);
            0.0 < ScreenOffset(rayIndex, w) < 480.0
            && ScreenOffset(rayIndex, w) < ScreenOffset(rayIndex + 1, w)
  {
    var w := WidthPerRay(m, amountOfRays);
    var n := amountOfRays as real;
    WidthTimesRays(m, amountOfRays);
    assert ScreenOffset(rayIndex, w) == (rayIndex as real + 0.5) * w;
    assert ScreenOffset(rayIndex + 1, w) == (rayIndex as real + 1.5) * w;
    MulPos(rayIndex as real + 0.5, w);
    MulStrict(rayIndex as real + 0.5, n, w);
    MulStrict(rayIndex as real + 0.5, rayIndex as real + 1.5, w);
  }

  /** Rays `i` and `n - 1 - i` sit at mirror-image offsets about the view's centre. */
  lemma OffsetsSymmetric(m: WorldMap.Map, amountOfRays: int, rayIndex: int)
    requires 1 <= amountOfRays
    ensures var w := WidthPerRay(m, amountOfRays);
            ScreenOffset(rayIndex, w) - HalfView == -(ScreenOffset(amountOfRays - 1 - rayIndex, w) - HalfView)
  {
    WidthTimesRays(m, amountOfRays);
    OffsetPair(amountOfRays, rayIndex, WidthPerRay(m, amountOfRays));
  }

  lemma OffsetPair(n: int, i: int, w: real)
    requires n as real * w == 480.0
    ensures ScreenOffset(i, w) - HalfView == -(ScreenOffset(n - 1 - i, w) - HalfView)
  {
    assert HalfView == 240.0;
    assert (n - 1 - i) as real == n as real - i as real - 1.0;
    MirrorOffsets(n as real, i as real, (n - 1 - i) as real, w);
    assert ScreenOffset(i, w) == i as real * w + w * 0.5;
    assert ScreenOffset(n - 1 - i, w) == (n - 1 - i) as real * w + w * 0.5;
  }

  /** The arithmetic of `OffsetPair`, over plain reals. */
  lemma MirrorOffsets(n: real, i: real, k: real, w: real)
    requires n * w == 480.0 && k == n - i - 1.0
    ensures i * w + w * 0.5 - 240.0 == -(k * w + w * 0.5 - 240.0)
  {
    assert k * w == n * w - i * w - w;
  }

  /** With an odd number of rays the middle one meets the plane at its centre. */
  lemma MiddleRayCentred(m: WorldMap.Map, amountOfRays: int)
    requires 1 <= amountOfRays && amountOfRays % 2 == 1
    ensures ScreenOffset((amountOfRays - 1) / 2, WidthPerRay(m, amountOfRays)) == HalfView
  {
    var mid := (amountOfRays - 1) / 2;
    OffsetsSymmetric(m, amountOfRays, mid);
    assert amountOfRays - 1 - mid == mid;
  }

  /**
   With `atan` odd, the angles of rays `i` and `n - 1 - i` are opposite, and
   with an odd number of rays the middle ray looks straight ahead.
   */
  lemma AnglesAntisymmetric(trig: Trig, m: WorldMap.Map, fov: int, amountOfRays: int, rayIndex: int)
    requires 1 <= amountOfRays
    requires IsOdd(trig.atanDeg)
    ensures var w := WidthPerRay(m, amountOfRays);
            AngleFromCamera(trig, fov, ScreenOffset(rayIndex, w))
            == -AngleFromCamera(trig, fov, ScreenOffset(amountOfRays - 1 - rayIndex, w))
    ensures amountOfRays % 2 == 1 ==>
              AngleFromCamera(trig, fov, ScreenOffset((amountOfRays - 1) / 2, WidthPerRay(m, amountOfRays))) == 0.0
  {
    var w := WidthPerRay(m, amountOfRays);
    var a := ScreenOffset(rayIndex, w) - HalfView;
    var b := ScreenOffset(amountOfRays - 1 - rayIndex, w) - HalfView;
    OffsetsSymmetric(m, amountOfRays, rayIndex);
    assert a == -b;
    var tanHalf := trig.tanDeg(HalfFov(fov));
    var ratioA := if tanHalf == 0.0 then 0.0 else a / (HalfView / tanHalf);
    var ratioB := if tanHalf == 0.0 then 0.0 else b / (HalfView / tanHalf);
    if tanHalf != 0.0 {
      DivMul(HalfView, tanHalf);
      assert HalfView / tanHalf != 0.0;
      DivNeg(b, HalfView / tanHalf);
    }
    assert ratioA == -ratioB;
    assert trig.atanDeg(-ratioB) == -trig.atanDeg(ratioB);
    assert trig.atanDeg(-0.0) == -trig.atanDeg(0.0);
    if amountOfRays % 2 == 1 {
      MiddleRayCentred(m, amountOfRays);
    }
  }

  // ---- Properties of the slices ----------------------------------------------

  /**
   Straight ahead the corrected distance is the true Euclidean distance; off
   centre, with `cos` strictly between 0 and 1, it is strictly shorter.
   */
  lemma FisheyeCorrection(trig: Trig, position: Point, collision: Point, rayIndex: int,
                          widthPerRay: real, angleFromCamera: real)
    requires IsSqrtOf(trig.sqrt(SqDist(position, collision)), SqDist(position, collision))
    ensures var s := DrawRay(trig, position, collision, rayIndex, widthPerRay, angleFromCamera);
            angleFromCamera == 0.0 && trig.cosDeg(0.0) == 1.0 ==>
              0.0 <= s.corrected && s.corrected * s.corrected == SqDist(position, collision)
    ensures var s := DrawRay(trig, position, collision, rayIndex, widthPerRay, angleFromCamera);
            position != collision && 0.0 < trig.cosDeg(Abs(angleFromCamera)) < 1.0 ==>
              0.0 < s.corrected < s.distance
  {
    var s := DrawRay(trig, position, collision, rayIndex, widthPerRay, angleFromCamera);
    var c := trig.cosDeg(Abs(angleFromCamera));
    assert s.distance == trig.sqrt(SqDist(position, collision));
    assert s.corrected == s.distance * c;
    if angleFromCamera == 0.0 && trig.cosDeg(0.0) == 1.0 {
      assert Abs(0.0) == 0.0;
      assert s.corrected == s.distance;
    }
    if position != collision && 0.0 < c < 1.0 {
      SqDistPositive(position, collision);
      RootPos(s.distance, SqDist(position, collision));
      CorrectedBelowDistance(s, c);
    }
  }

  lemma CorrectedBelowDistance(s: Slice, c: real)
    requires s.corrected == s.distance * c
    requires 0.0 < s.distance && 0.0 < c < 1.0
    ensures 0.0 < s.corrected < s.distance
  {
    ProductPositive(s.corrected, s.distance, c);
    ProductBelow(s.corrected, s.distance, c);
  }

  /** A slice looks the same for a ray `a` degrees left of centre as for one `a` degrees right. */
  lemma SliceSymmetricInAngle(trig: Trig, position: Point, collision: Point, rayIndex: int,
                              widthPerRay: real, angleFromCamera: real)
    ensures DrawRay(trig, position, collision, rayIndex, widthPerRay, angleFromCamera)
         == DrawRay(trig, position, collision, rayIndex, widthPerRay, -angleFromCamera)
  {
    var left := DrawRay(trig, position, collision, rayIndex, widthPerRay, angleFromCamera);
    var right := DrawRay(trig, position, collision, rayIndex, widthPerRay, -angleFromCamera);
    assert Abs(-angleFromCamera) == Abs(angleFromCamera);
    assert left.corrected == right.corrected;
  }

  /**
   The shade falls as the corrected distance grows: white at distance 0, black
   at 500, and, not being clamped, negative beyond 500.
   */
  lemma ShadeFalls(d1: real, d2: real)
    ensures d1 < d2 ==> Shade(d2) < Shade(d1)
    ensures Shade(0.0) == 1.0 && Shade(ShadeDistance) == 0.0
    ensures ShadeDistance < d1 ==> Shade(d1) < 0.0
    ensures d1 < 0.0 ==> 1.0 < Shade(d1)
  {
  }

  /** Nearer walls are drawn taller: the height falls strictly as the corrected distance grows. */
  lemma HeightFalls(d1: real, d2: real)
    requires 0.0 < d1 < d2
    ensures ColumnFor(d1).Some? && ColumnFor(d2).Some?
    ensures ColumnFor(d2).value.height < ColumnFor(d1).value.height
  {
    DivAntitone(HeightScale, d1, d2);
  }

  // ---- Normalisation ---------------------------------------------------------

  /** An angle already in [0, 360) is left alone, so normalising twice changes nothing. */
  lemma NormalizeIdempotent(angle: real)
    ensures 0.0 <= angle < 360.0 ==> NormalizeAngle(angle) == angle
    ensures NormalizeAngle(NormalizeAngle(angle)) == NormalizeAngle(angle)
  {
    var r := NormalizeAngle(angle);
    assert (r / 360.0).Floor == 0;
    if 0.0 <= angle < 360.0 {
      assert (angle / 360.0).Floor == 0;
    }
  }

  // ---- Worked cases ----------------------------------------------------------

  /**
   One wall along x = 100 from y = 0 to y = 100, seen from (0, 50) looking
   along +x: the ray hits the wall's midpoint.
   */
  lemma StraightAheadHit()
    ensures NearestHit([Wall(100.0, 0.0, 100.0, 100.0)], Point(0.0, 50.0), Vector(1.0, 0.0))
         == Some(Point(100.0, 50.0))
  {
    StraightAheadCrossing();
    SingleWallHit(Wall(100.0, 0.0, 100.0, 100.0), Point(0.0, 50.0), Vector(1.0, 0.0));
  }

  /** With one wall in the map, a ray that hits it returns its crossing point. */
  lemma SingleWallHit(w: Wall, pos: Point, dir: Vector)
    requires Hits(w, pos, dir)
    ensures NearestHit([w], pos, dir) == Some(HitPoint(w, pos, dir))
  {
    var walls := [w];
    var r := NearestHit(walls, pos, dir);
    assert Hits(walls[0], pos, dir);
    var k :| FirstNearest(CrossingOf(pos, dir), walls, DistanceFrom(pos), k)
             && Hits(walls[k], pos, dir) && r.value == HitPoint(walls[k], pos, dir);
    assert k == 0;
  }

  lemma StraightAheadCrossing()
    ensures Hits(Wall(100.0, 0.0, 100.0, 100.0), Point(0.0, 50.0), Vector(1.0, 0.0))
    ensures HitPoint(Wall(100.0, 0.0, 100.0, 100.0), Point(0.0, 50.0), Vector(1.0, 0.0)) == Point(100.0, 50.0)
  {
    var w, pos, dir := Wall(100.0, 0.0, 100.0, 100.0), Point(0.0, 50.0), Vector(1.0, 0.0);
    assert Den(w, pos, dir) == -100.0;
    assert WallParam(w, pos, dir) == 0.5;
    assert RayParam(w, pos, dir) == 100.0;
  }

  /** A map without walls gives every ray no hit and no slice. */
  lemma EmptyMapNoHits(trig: Trig, position: Point, direction: real, fov: int, amountOfRays: int, rayIndex: int)
    requires 1 <= amountOfRays
    ensures CastRay(trig, WorldMap.Map([]), position, direction, fov, amountOfRays, rayIndex).hit.None?
    ensures CastRay(trig, WorldMap.Map([]), position, direction, fov, amountOfRays, rayIndex).slice.None?
  {
  }

  /**
   On the bare boundary a ray aimed exactly at a corner hits nothing, because
   a hit must lie strictly between a wall's endpoints.
   */
  lemma CornerRayEscapes()
    ensures NearestHit(WorldMap.Boundary(), Point(100.0, 100.0), Vector(-1.0, -1.0)).None?
  {
    var ws, pos, dir := WorldMap.Boundary(), Point(100.0, 100.0), Vector(-1.0, -1.0);
    assert ws[0] == Wall(0.0, 0.0, 0.0, 479.0);
    assert ws[3] == Wall(479.0, 0.0, 0.0, 0.0);
    assert WallParam(ws[0], pos, dir) == 0.0;
    assert WallParam(ws[3], pos, dir) == 1.0;
    assert RayParam(ws[1], pos, dir) < 0.0;
    assert RayParam(ws[2], pos, dir) < 0.0;
    forall j | 0 <= j < |ws| ensures !Hits(ws[j], pos, dir) {
    }
  }
}
