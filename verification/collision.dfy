/**
 The ray/wall test of the camera (`getCollision`): the parametric
 intersection of a ray with each wall segment, and the fold over the wall
 list that keeps the nearest hit.
 */
module Collision {
  import opened Options
  import opened Geometry
  import opened Arith
  import opened Trig

  // ---- One wall ----------------------------------------------------------

  /**
   The denominator of the line/line intersection of the wall with the line
   through `pos` and `pos + dir`. It is zero exactly when the two are parallel.
   */
  function Den(w: Wall, pos: Point, dir: Vector): real {
    var x3, y3 := pos.x, pos.y;
    var x4, y4 := pos.x + dir.dx, pos.y + dir.dy;
    (w.x1 - w.x2) * (y3 - y4) - (w.y1 - w.y2) * (x3 - x4)
  }

  /** Where along the wall the lines cross: 0 at its start, 1 at its end. */
  function WallParam(w: Wall, pos: Point, dir: Vector): real
    requires Den(w, pos, dir) != 0.0
  {
    var x3, y3 := pos.x, pos.y;
    var x4, y4 := pos.x + dir.dx, pos.y + dir.dy;
    ((w.x1 - x3) * (y3 - y4) - (w.y1 - y3) * (x3 - x4)) / Den(w, pos, dir)
  }

  /** Where along the ray the lines cross, in multiples of `dir`. */
  function RayParam(w: Wall, pos: Point, dir: Vector): real
    requires Den(w, pos, dir) != 0.0
  {
    var x3, y3 := pos.x, pos.y;
    -((w.x1 - w.x2) * (w.y1 - y3) - (w.y1 - w.y2) * (w.x1 - x3)) / Den(w, pos, dir)
  }

  /** The ray hits the wall strictly between its endpoints and strictly ahead of the viewpoint. */
  predicate Hits(w: Wall, pos: Point, dir: Vector) {
    && Den(w, pos, dir) != 0.0
    && 0.0 < WallParam(w, pos, dir) < 1.0
    && 0.0 < RayParam(w, pos, dir)
  }

  function PointOnWall(w: Wall, t: real): Point {
    Point(w.x1 + t * (w.x2 - w.x1), w.y1 + t * (w.y2 - w.y1))
  }

  function PointOnRay(pos: Point, dir: Vector, u: real): Point {
    Point(pos.x + u * dir.dx, pos.y + u * dir.dy)
  }

  /** The crossing point, computed from the wall's side as the camera does. */
  function HitPoint(w: Wall, pos: Point, dir: Vector): Point
    requires Den(w, pos, dir) != 0.0
  {
    PointOnWall(w, WallParam(w, pos, dir))
  }

  /** Squared distance from the viewpoint to the crossing point. */
  function HitDistance(w: Wall, pos: Point, dir: Vector): real
    requires Den(w, pos, dir) != 0.0
  {
    SqDist(pos, HitPoint(w, pos, dir))
  }

  /**
   The crossing point computed from the wall's side is also the point
   `RayParam` steps along the ray: the two parameters describe one point.
   */
  lemma HitLiesOnRay(w: Wall, pos: Point, dir: Vector)
    requires Den(w, pos, dir) != 0.0
    ensures HitPoint(w, pos, dir) == PointOnRay(pos, dir, RayParam(w, pos, dir))
  {
    var x1, y1, x2, y2 := w.x1, w.y1, w.x2, w.y2;
    var px, py, dx, dy := pos.x, pos.y, dir.dx, dir.dy;
    var den := Den(w, pos, dir);
    var tn := (x1 - px) * (py - (py + dy)) - (y1 - py) * (px - (px + dx));
    var un := -((x1 - x2) * (y1 - py) - (y1 - y2) * (x1 - px));
    assert WallParam(w, pos, dir) == tn / den;
    assert RayParam(w, pos, dir) == un / den;
    CrossingX(x1, y1, x2, y2, px, py, dx, dy);
    CrossingY(x1, y1, x2, y2, px, py, dx, dy);
    SolveAlong(den, tn / den, tn, un / den, un, x1, x2, px, dx);
    SolveAlong(den, tn / den, tn, un / den, un, y1, y2, py, dy);
  }

  /** Cleared of the denominator, the two descriptions of the crossing agree on x ... */
  lemma CrossingX(x1: real, y1: real, x2: real, y2: real, px: real, py: real, dx: real, dy: real)
    ensures var den := (x1 - x2) * (py - (py + dy)) - (y1 - y2) * (px - (px + dx));
            var tn := (x1 - px) * (py - (py + dy)) - (y1 - py) * (px - (px + dx));
            var un := -((x1 - x2) * (y1 - py) - (y1 - y2) * (x1 - px));
            den * x1 + tn * (x2 - x1) == den * px + un * dx
  {
  }

  /** ... and on y. */
  lemma CrossingY(x1: real, y1: real, x2: real, y2: real, px: real, py: real, dx: real, dy: real)
    ensures var den := (x1 - x2) * (py - (py + dy)) - (y1 - y2) * (px - (px + dx));
            var tn := (x1 - px) * (py - (py + dy)) - (y1 - py) * (px - (px + dx));
            var un := -((x1 - x2) * (y1 - py) - (y1 - y2) * (x1 - px));
            den * y1 + tn * (y2 - y1) == den * py + un * dy
  {
  }

  /** Dividing the cleared equation by the denominator. */
  lemma SolveAlong(den: real, t: real, tn: real, u: real, un: real, a1: real, a2: real, p: real, d: real)
    requires den != 0.0
    requires t == tn / den && u == un / den
    requires den * a1 + tn * (a2 - a1) == den * p + un * d
    ensures a1 + t * (a2 - a1) == p + u * d
  {
    DivMul(tn, den);
    DivMul(un, den);
    var k := a2 - a1;
    assert den * (a1 + t * k) == den * a1 + (t * den) * k;
    assert den * (p + u * d) == den * p + (u * den) * d;
    Cancel(den, a1 + t * k, p + u * d);
  }

  /** The crossing point of the ray with one wall, if the ray hits it. */
  function Crossing(w: Wall, pos: Point, dir: Vector): Option<Point> {
    if Hits(w, pos, dir) then Some(HitPoint(w, pos, dir)) else None
  }

  /** The per-wall test for one ray, as a value the fold can be given. */
  function CrossingOf(pos: Point, dir: Vector): Wall -> Option<Point> {
    w => Crossing(w, pos, dir)
  }

  // ---- The nearest hit over a wall list --------------------------------------

  /** The squared distance from `pos`, as the value the fold compares. */
  function DistanceFrom(pos: Point): Point -> real {
    p => SqDist(pos, p)
  }

  /** The Euclidean distance from `pos`, through `sqrt`, as `getCollision` compares it. */
  function RootDistanceFrom(sqrt: real -> real, pos: Point): Point -> real {
    p => sqrt(SqDist(pos, p))
  }

  ghost predicate NonNegative(dist: Point -> real) {
    forall p :: 0.0 <= dist(p)
  }

  /**
   The loop of `getCollision`, walking the walls in list order. `closest` and
   `smallest` are the loop's variables, with -1 meaning "no hit yet";
   `cross` is the per-wall test and `dist` the compared distance of a point.
   The answer is the starting point or some wall's crossing; a hit once found
   is never lost, and a list that crosses nothing leaves the start alone.
   */
  function Scan(dist: Point -> real, cross: Wall -> Option<Point>, walls: seq<Wall>,
                closest: Option<Point>, smallest: real): (r: Option<Point>)
    ensures r == closest || exists k :: 0 <= k < |walls| && cross(walls[k]) == r
    ensures closest.Some? ==> r.Some?
    ensures (forall j | 0 <= j < |walls| :: cross(walls[j]).None?) ==> r == closest
  {
    if walls == [] then closest
    else
      match cross(walls[0])
      case Some(p) =>
        var distance := dist(p);
        if distance < smallest || smallest == -1.0 then
          Scan(dist, cross, walls[1..], Some(p), distance)
        else
          Scan(dist, cross, walls[1..], closest, smallest)
      case None =>
        Scan(dist, cross, walls[1..], closest, smallest)
  }

  /** No wall before index `n` is crossed. */
  predicate NoneCrossedBefore(cross: Wall -> Option<Point>, walls: seq<Wall>, n: int)
    requires n <= |walls|
  {
    forall j | 0 <= j < n :: cross(walls[j]).None?
  }

  /**
   Among the walls before index `n`, wall `k` is crossed, no crossing is
   nearer, and every crossing at an earlier index is strictly farther.
   */
  predicate FirstNearestBefore(cross: Wall -> Option<Point>, walls: seq<Wall>, dist: Point -> real, k: int, n: int)
    requires n <= |walls|
  {
    && 0 <= k < n
    && cross(walls[k]).Some?
    && (forall j | 0 <= j < n && cross(walls[j]).Some? ::
          dist(cross(walls[k]).value) <= dist(cross(walls[j]).value))
    && (forall j | 0 <= j < k && cross(walls[j]).Some? ::
          dist(cross(walls[k]).value) < dist(cross(walls[j]).value))
  }

  /** Wall `k` is the nearest crossing of the list, the first in list order among equally near ones. */
  predicate FirstNearest(cross: Wall -> Option<Point>, walls: seq<Wall>, dist: Point -> real, k: int) {
    FirstNearestBefore(cross, walls, dist, k, |walls|)
  }

  /** What the fold's variables mean after the walls before index `i` have been seen. */
  ghost predicate ScanState(cross: Wall -> Option<Point>, walls: seq<Wall>, dist: Point -> real,
                            i: nat, closest: Option<Point>, smallest: real)
    requires i <= |walls|
  {
    && (closest.None? ==> smallest == -1.0 && NoneCrossedBefore(cross, walls, i))
    && (closest.Some? ==>
          exists k :: FirstNearestBefore(cross, walls, dist, k, i)
                      && closest == cross(walls[k])
                      && smallest == dist(closest.value))
  }

  /** A crossing strictly nearer than every earlier one (or the first one) becomes the new best. */
  lemma TakeCrossing(cross: Wall -> Option<Point>, walls: seq<Wall>, dist: Point -> real,
                     i: nat, closest: Option<Point>, smallest: real)
    requires NonNegative(dist)
    requires i < |walls| && cross(walls[i]).Some?
    requires ScanState(cross, walls, dist, i, closest, smallest)
    requires dist(cross(walls[i]).value) < smallest || smallest == -1.0
    ensures FirstNearestBefore(cross, walls, dist, i, i + 1)
  {
    if closest.Some? {
      var k :| FirstNearestBefore(cross, walls, dist, k, i)
               && closest == cross(walls[k])
               && smallest == dist(closest.value);
      assert 0.0 <= dist(closest.value);
    }
  }

  /** A wall that is missed, or crossed no nearer than the best so far, keeps the best. */
  lemma KeepBest(cross: Wall -> Option<Point>, walls: seq<Wall>, dist: Point -> real, k: int, i: nat)
    requires i < |walls| && FirstNearestBefore(cross, walls, dist, k, i)
    requires cross(walls[i]).Some? ==> dist(cross(walls[k]).value) <= dist(cross(walls[i]).value)
    ensures FirstNearestBefore(cross, walls, dist, k, i + 1)
  {
  }

  /** One step of the fold keeps the meaning of its variables. */
  lemma ScanStep(cross: Wall -> Option<Point>, walls: seq<Wall>, dist: Point -> real,
                 i: nat, closest: Option<Point>, smallest: real)
    returns (closest': Option<Point>, smallest': real)
    requires NonNegative(dist)
    requires i < |walls|
    requires ScanState(cross, walls, dist, i, closest, smallest)
    ensures Scan(dist, cross, walls[i..], closest, smallest) == Scan(dist, cross, walls[i + 1..], closest', smallest')
    ensures ScanState(cross, walls, dist, i + 1, closest', smallest')
  {
    var rest := walls[i..];
    assert rest[0] == walls[i];
    assert rest[1..] == walls[i + 1..];
    match cross(walls[i])
    case Some(p) =>
      var d := dist(p);
      if d < smallest || smallest == -1.0 {
        TakeCrossing(cross, walls, dist, i, closest, smallest);
        closest', smallest' := Some(p), d;
      } else {
        var k :| FirstNearestBefore(cross, walls, dist, k, i)
                 && closest == cross(walls[k])
                 && smallest == dist(closest.value);
        KeepBest(cross, walls, dist, k, i);
        closest', smallest' := closest, smallest;
      }
    case None =>
      if closest.Some? {
        var k :| FirstNearestBefore(cross, walls, dist, k, i)
                 && closest == cross(walls[k])
                 && smallest == dist(closest.value);
        KeepBest(cross, walls, dist, k, i);
      }
      closest', smallest' := closest, smallest;
  }

  /** At the end of the list the fold's variables hold the answer. */
  lemma ScanEnd(cross: Wall -> Option<Point>, walls: seq<Wall>, dist: Point -> real,
                closest: Option<Point>, smallest: real)
    requires ScanState(cross, walls, dist, |walls|, closest, smallest)
    ensures closest.None? <==> NoneCrossedBefore(cross, walls, |walls|)
    ensures closest.Some? ==> exists k :: FirstNearest(cross, walls, dist, k) && closest == cross(walls[k])
  {
    if closest.Some? {
      var k :| FirstNearestBefore(cross, walls, dist, k, |walls|)
               && closest == cross(walls[k])
               && smallest == dist(closest.value);
      assert cross(walls[k]).Some?;
    }
  }

  /** The invariant of the fold, carried from index `i` to the end of the list. */
  lemma {:induction false} ScanFindsFirstNearest(cross: Wall -> Option<Point>, walls: seq<Wall>, dist: Point -> real,
                                                i: nat, closest: Option<Point>, smallest: real)
    returns (closest': Option<Point>, smallest': real)
    requires NonNegative(dist)
    requires i <= |walls|
    requires ScanState(cross, walls, dist, i, closest, smallest)
    ensures Scan(dist, cross, walls[i..], closest, smallest) == closest'
    ensures ScanState(cross, walls, dist, |walls|, closest', smallest')
    decreases |walls| - i
  {
    if i == |walls| {
      assert walls[i..] == [];
      closest', smallest' := closest, smallest;
    } else {
      var c, d := ScanStep(cross, walls, dist, i, closest, smallest);
      closest', smallest' := ScanFindsFirstNearest(cross, walls, dist, i + 1, c, d);
    }
  }

  /** The fold started with no hit finds the first nearest crossing, and finds none exactly when no wall is crossed. */
  lemma ScanAnswers(cross: Wall -> Option<Point>, walls: seq<Wall>, dist: Point -> real)
    requires NonNegative(dist)
    ensures var r := Scan(dist, cross, walls, None, -1.0);
            && (r.None? <==> NoneCrossedBefore(cross, walls, |walls|))
            && (r.Some? ==> exists k :: FirstNearest(cross, walls, dist, k) && r == cross(walls[k]))
  {
    assert walls[0..] == walls;
    var closest, smallest := ScanFindsFirstNearest(cross, walls, dist, 0, None, -1.0);
    ScanEnd(cross, walls, dist, closest, smallest);
  }

  /**
   The point `getCollision` returns for a ray from `pos` along `dir`,
   comparing squared distances.
   */
  function NearestHit(walls: seq<Wall>, pos: Point, dir: Vector): (r: Option<Point>)
    ensures r.None? <==> forall j | 0 <= j < |walls| :: !Hits(walls[j], pos, dir)
    ensures r.Some? ==>
              exists k :: FirstNearest(CrossingOf(pos, dir), walls, DistanceFrom(pos), k)
                          && Hits(walls[k], pos, dir)
                          && r.value == HitPoint(walls[k], pos, dir)
  {
    assert NonNegative(DistanceFrom(pos)) by {
      forall p ensures 0.0 <= DistanceFrom(pos)(p) {
        assert DistanceFrom(pos)(p) == SqDist(pos, p);
      }
    }
    ScanAnswers(CrossingOf(pos, dir), walls, DistanceFrom(pos));
    Scan(DistanceFrom(pos), CrossingOf(pos, dir), walls, None, -1.0)
  }

  /** The nearest hit, compared by `sqrt` of the squared distance as `getCollision` writes it. */
  function NearestHitBySqrt(sqrt: real -> real, walls: seq<Wall>, pos: Point, dir: Vector): Option<Point> {
    Scan(RootDistanceFrom(sqrt, pos), CrossingOf(pos, dir), walls, None, -1.0)
  }

  /**
   Comparing `sqrt` of the distances picks the same wall as comparing the
   distances, for any strictly increasing non-negative `sqrt`.
   */
  lemma {:induction false} RootScanAgrees(sqrt: real -> real, byRoot: Point -> real, bySquare: Point -> real,
                                          cross: Wall -> Option<Point>, walls: seq<Wall>,
                                          closest: Option<Point>, rootBest: real, squareBest: real)
    requires MonotoneRoot(sqrt)
    requires forall p :: 0.0 <= bySquare(p) && byRoot(p) == sqrt(bySquare(p))
    requires (rootBest == -1.0 && squareBest == -1.0) || (0.0 <= squareBest && rootBest == sqrt(squareBest))
    ensures Scan(byRoot, cross, walls, closest, rootBest) == Scan(bySquare, cross, walls, closest, squareBest)
    decreases |walls|
  {
    if walls != [] {
      match cross(walls[0])
      case Some(p) =>
        var d := bySquare(p);
        assert byRoot(p) == sqrt(d);
        if squareBest != -1.0 {
          assert d < squareBest ==> sqrt(d) < sqrt(squareBest);
          assert squareBest < d ==> sqrt(squareBest) < sqrt(d);
        }
        RootScanAgrees(sqrt, byRoot, bySquare, cross, walls[1..], Some(p), sqrt(d), d);
        RootScanAgrees(sqrt, byRoot, bySquare, cross, walls[1..], closest, rootBest, squareBest);
      case None =>
        RootScanAgrees(sqrt, byRoot, bySquare, cross, walls[1..], closest, rootBest, squareBest);
    }
  }

  /** The nearest hit is the same whether distances are compared squared or through `sqrt`. */
  lemma NearestHitBySqrtAgrees(sqrt: real -> real, walls: seq<Wall>, pos: Point, dir: Vector)
    requires MonotoneRoot(sqrt)
    ensures NearestHitBySqrt(sqrt, walls, pos, dir) == NearestHit(walls, pos, dir)
  {
    forall p ensures 0.0 <= DistanceFrom(pos)(p)
                     && RootDistanceFrom(sqrt, pos)(p) == sqrt(DistanceFrom(pos)(p)) {
      assert DistanceFrom(pos)(p) == SqDist(pos, p);
    }
    RootScanAgrees(sqrt, RootDistanceFrom(sqrt, pos), DistanceFrom(pos), CrossingOf(pos, dir), walls,
                   None, -1.0, -1.0);
  }

  /** A wall the ray does not hit can be taken out of the list without changing the fold. */
  lemma {:induction false} MissedWallIgnored(dist: Point -> real, cross: Wall -> Option<Point>,
                                             before: seq<Wall>, w: Wall, after: seq<Wall>,
                                             closest: Option<Point>, smallest: real)
    requires cross(w).None?
    ensures Scan(dist, cross, before + [w] + after, closest, smallest)
         == Scan(dist, cross, before + after, closest, smallest)
    decreases |before|
  {
    if before == [] {
      assert before + [w] + after == [w] + after;
      assert ([w] + after)[1..] == after;
      assert before + after == after;
    } else {
      assert (before + [w] + after)[0] == before[0];
      assert (before + [w] + after)[1..] == before[1..] + [w] + after;
      assert (before + after)[0] == before[0];
      assert (before + after)[1..] == before[1..] + after;
      match cross(before[0])
      case Some(p) =>
        MissedWallIgnored(dist, cross, before[1..], w, after, Some(p), dist(p));
        MissedWallIgnored(dist, cross, before[1..], w, after, closest, smallest);
      case None =>
        MissedWallIgnored(dist, cross, before[1..], w, after, closest, smallest);
    }
  }

  /** A wall parallel to the ray never changes the result, wherever it sits in the list. */
  lemma ParallelWallIgnored(before: seq<Wall>, w: Wall, after: seq<Wall>, pos: Point, dir: Vector)
    requires Den(w, pos, dir) == 0.0
    ensures NearestHit(before + [w] + after, pos, dir) == NearestHit(before + after, pos, dir)
  {
    MissedWallIgnored(DistanceFrom(pos), CrossingOf(pos, dir), before, w, after, None, -1.0);
  }

  /**
   A returned point lies strictly inside some wall (parameter in (0, 1)) and
   strictly ahead of the viewpoint on the ray (positive multiple of `dir`).
   */
  lemma NearestHitOnWallAndRay(walls: seq<Wall>, pos: Point, dir: Vector)
    requires NearestHit(walls, pos, dir).Some?
    ensures exists k, t, u :: 0 <= k < |walls| && 0.0 < t < 1.0 && 0.0 < u
                              && NearestHit(walls, pos, dir).value == PointOnWall(walls[k], t)
                              && NearestHit(walls, pos, dir).value == PointOnRay(pos, dir, u)
  {
    var r := NearestHit(walls, pos, dir);
    var k :| FirstNearest(CrossingOf(pos, dir), walls, DistanceFrom(pos), k)
             && Hits(walls[k], pos, dir)
             && r.value == HitPoint(walls[k], pos, dir);
    HitLiesOnRay(walls[k], pos, dir);
    var t, u := WallParam(walls[k], pos, dir), RayParam(walls[k], pos, dir);
    assert r.value == PointOnWall(walls[k], t) && r.value == PointOnRay(pos, dir, u);
  }

  /**
   The returned point is no farther than any hit, and every wall listed before
   the chosen one is either missed or strictly farther.
   */
  lemma NearestHitIsFirstNearest(walls: seq<Wall>, pos: Point, dir: Vector)
    requires NearestHit(walls, pos, dir).Some?
    ensures exists k :: 0 <= k < |walls| && Hits(walls[k], pos, dir)
                        && NearestHit(walls, pos, dir).value == HitPoint(walls[k], pos, dir)
                        && (forall j | 0 <= j < |walls| && Hits(walls[j], pos, dir) ::
                              HitDistance(walls[k], pos, dir) <= HitDistance(walls[j], pos, dir))
                        && (forall j | 0 <= j < k && Hits(walls[j], pos, dir) ::
                              HitDistance(walls[k], pos, dir) < HitDistance(walls[j], pos, dir))
  {
    var cross := CrossingOf(pos, dir);
    var k :| FirstNearest(cross, walls, DistanceFrom(pos), k)
             && Hits(walls[k], pos, dir)
             && NearestHit(walls, pos, dir).value == HitPoint(walls[k], pos, dir);
    forall j | 0 <= j < |walls| && Hits(walls[j], pos, dir)
      ensures HitDistance(walls[k], pos, dir) <= HitDistance(walls[j], pos, dir)
    {
      assert cross(walls[j]).Some?;
    }
    forall j | 0 <= j < k && Hits(walls[j], pos, dir)
      ensures HitDistance(walls[k], pos, dir) < HitDistance(walls[j], pos, dir)
    {
      assert cross(walls[j]).Some?;
    }
  }
}
