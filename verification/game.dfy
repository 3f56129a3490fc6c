/**
 One frame of `Application.render`: the viewer is updated first and the
 camera then renders from where the update left it, with the field of view
 and the ray count read off the two sliders.
 */
module Game {
  import opened Geometry
  import opened Trig
  import opened Collision
  import opened Movement
  import RayCamera
  import Sliders
  import Application
  import WorldMap

  /** `update` followed by `render`, as `Application.render` calls them. */
  method RenderFrame(trig: Trig, m: WorldMap.Map, u: User, keys: Keys, deltaTime: real, c: Sliders.Controls)
    returns (v: User, rays: seq<RayCamera.Ray>)
    ensures v == Update(trig, u, keys, deltaTime, m)
    ensures Inside(u.position, m) ==> Inside(v.position, m)
    ensures forall i | 0 <= i < |rays| ::
              1 <= Sliders.Value(c.rays)
              && rays[i] == RayCamera.CastRay(trig, m, v.position, v.direction,
                                              Sliders.Value(c.fov), Sliders.Value(c.rays), i)
    ensures Sliders.Valid(c.rays) && c.rays.minValue == Application.MinRays && c.rays.maxValue == Application.MaxRays ==>
              |rays| == Sliders.Value(c.rays) && 1 <= |rays|
  {
    v := Update(trig, u, keys, deltaTime, m);
    rays := RayCamera.Render(trig, m, v.position, v.direction, Sliders.Value(c.fov), Sliders.Value(c.rays));
  }

  /**
   The W key moves the viewer along the camera's centre ray: the target of
   the forward move is `Speed * deltaTime` along the direction vector the
   camera gives a ray at the viewer's own direction.
   */
  lemma ForwardAlongCentreRay(trig: Trig, u: User, deltaTime: real)
    ensures Target(trig, u, u.direction * -1.0 + 90.0, deltaTime)
         == PointOnRay(u.position, RayCamera.RayDirection(trig, u.direction), Speed * deltaTime)
  {
    var a := u.direction * -1.0 + 90.0;
    assert -u.direction + 90.0 == a;
    var c, s := trig.cosDeg(a), trig.sinDeg(a);
    assert RayCamera.RayDirection(trig, u.direction) == Vector(c, s);
    var k := Speed * deltaTime;
    assert c * Speed * deltaTime == k * c && s * Speed * deltaTime == k * s;
    assert Target(trig, u, a, deltaTime)
        == Point(u.position.x + c * Speed * deltaTime, u.position.y + s * Speed * deltaTime);
  }
}
