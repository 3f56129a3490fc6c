/**
 The on-screen sliders (`Slider`) that set the field of view and the number
 of rays: a marker position as a fraction of the box, a selected flag, and
 the integer value read off the marker.
 */
module Sliders {
  import opened JavaMath
  import opened Arith
  import Application

  /** The size of a slider's box, in pixels. */
  const BoxWidth: int := 100
  const BoxHeight: int := 15

  /** A slider with its box's lower-left corner at (x, y) and its value range. */
  datatype Slider = Slider(x: int, y: int, minValue: int, maxValue: int, percentage: real, selected: bool)

  /** The marker lies within the box. */
  predicate Valid(s: Slider) {
    0.0 <= s.percentage <= 1.0
  }

  /** A new slider: the marker half way along, not selected. */
  function NewSlider(x: int, y: int, minValue: int, maxValue: int): (s: Slider)
    ensures Valid(s) && !s.selected
    ensures s.percentage == 0.5
    ensures s.x == x && s.y == y && s.minValue == minValue && s.maxValue == maxValue
  {
    Slider(x, y, minValue, maxValue, 0.5, false)
  }

  /**
   The value the marker points at, before the `(int)` cast: the minimum with
   the marker at the left end, the maximum at the right end, and the middle
   of the range half way along.
   */
  function Interpolated(s: Slider): (v: real)
    ensures s.percentage == 0.0 ==> v == s.minValue as real
    ensures s.percentage == 1.0 ==> v == s.maxValue as real
    ensures s.percentage == 0.5 ==> 2.0 * v == (s.minValue + s.maxValue) as real
  {
    s.minValue as real + s.percentage * (s.maxValue - s.minValue) as real
  }

  /**
   `getValue`: the marker's value truncated toward zero. With the marker in
   the box it lies in the slider's range, and for a non-negative range it is
   the whole part of the marker's value.
   */
  function Value(s: Slider): (v: int)
    ensures Valid(s) && s.minValue <= s.maxValue && IntMin <= s.minValue && s.maxValue <= IntMax ==>
              s.minValue <= v <= s.maxValue
    ensures Valid(s) && 0 <= s.minValue <= s.maxValue <= IntMax ==>
              v as real <= Interpolated(s) < v as real + 1.0
    ensures IntMin <= v <= IntMax
  {
    InRange(s);
    IntCast(Interpolated(s))
  }

  lemma InRange(s: Slider)
    ensures Valid(s) && s.minValue <= s.maxValue ==>
              s.minValue as real <= Interpolated(s) <= s.maxValue as real
  {
    if Valid(s) && s.minValue <= s.maxValue {
      assert (s.maxValue - s.minValue) as real == s.maxValue as real - s.minValue as real;
      Between(s.minValue as real, s.maxValue as real, s.percentage, Interpolated(s));
    }
  }

  /** A point a fraction `p` of the way from `lo` to `hi` lies between them. */
  lemma Between(lo: real, hi: real, p: real, x: real)
    requires lo <= hi && 0.0 <= p <= 1.0 && x == lo + p * (hi - lo)
    ensures lo <= x <= hi
  {
    var span := hi - lo;
    FractionOfSpan(p, span);
    var step := p * span;
    assert x == lo + step;
  }

  /** The point (mx, my) lies strictly inside the slider's box. */
  predicate InBox(s: Slider, mx: int, my: int) {
    s.x < mx < s.x + BoxWidth && s.y < my < s.y + BoxHeight
  }

  /**
   `click`: inside the box the marker jumps to the click and the slider is
   selected; anywhere else nothing changes.
   */
  function Click(s: Slider, mx: int, my: int): (r: Slider)
    ensures InBox(s, mx, my) ==>
              && r.selected
              && 0.0 < r.percentage < 1.0
              && r.x as real + r.percentage * BoxWidth as real == mx as real
              && r == s.(percentage := r.percentage, selected := true)
    ensures !InBox(s, mx, my) ==> r == s
  {
    if mx > s.x && mx < s.x + BoxWidth then
      if my > s.y && my < s.y + BoxHeight then
        s.(percentage := (mx - s.x) as real / BoxWidth as real, selected := true)
      else s
    else s
  }

  /**
   `drag`: while selected the marker follows the mouse's x, held to the
   box; while not selected nothing changes.
   */
  function Drag(s: Slider, mx: int, my: int): (r: Slider)
    ensures !s.selected ==> r == s
    ensures s.selected ==>
              && r == s.(percentage := r.percentage)
              && 0.0 <= r.percentage <= 1.0
              && (mx <= s.x ==> r.percentage == 0.0)
              && (s.x + BoxWidth <= mx ==> r.percentage == 1.0)
              && (s.x <= mx <= s.x + BoxWidth ==> r.x as real + r.percentage * BoxWidth as real == mx as real)
  {
    if s.selected then
      var held := Max(s.x, Min(mx, s.x + BoxWidth));
      s.(percentage := (held - s.x) as real / BoxWidth as real)
    else s
  }

  function Min(a: int, b: int): int { if a <= b then a else b }
  function Max(a: int, b: int): int { if a >= b then a else b }

  /** `release`: the slider is deselected and the marker stays where it is. */
  function Release(s: Slider): (r: Slider)
    ensures !r.selected
    ensures r.(selected := s.selected) == s
  {
    s.(selected := false)
  }

  /** The mouse events a slider reacts to, in its own coordinates (y grows upwards). */
  datatype Event = Press(x: int, y: int) | Move(x: int, y: int) | Lift

  function Apply(s: Slider, e: Event): (r: Slider)
    ensures Valid(s) ==> Valid(r)
    ensures r.x == s.x && r.y == s.y && r.minValue == s.minValue && r.maxValue == s.maxValue
  {
    match e
    case Press(x, y) => Click(s, x, y)
    case Move(x, y) => Drag(s, x, y)
    case Lift => Release(s)
  }

  /** A slider after a run of events: the marker never leaves the box. */
  function ApplyAll(s: Slider, events: seq<Event>): (r: Slider)
    ensures Valid(s) ==> Valid(r)
    ensures r.x == s.x && r.y == s.y && r.minValue == s.minValue && r.maxValue == s.maxValue
    decreases |events|
  {
    if events == [] then s
    else ApplyAll(Apply(s, events[0]), events[1..])
  }

  // ---- The two sliders of the application ------------------------------------

  /** The field-of-view slider, 50 pixels below the top of the window. */
  function FovSlider(): (s: Slider)
    ensures Valid(s) && s.minValue == Application.MinFov && s.maxValue == Application.MaxFov
  {
    NewSlider(20, Application.ScreenHeight - 50, Application.MinFov, Application.MaxFov)
  }

  /** The ray-count slider, 80 pixels below the top of the window. */
  function RaysSlider(): (s: Slider)
    ensures Valid(s) && s.minValue == Application.MinRays && s.maxValue == Application.MaxRays
  {
    NewSlider(20, Application.ScreenHeight - 80, Application.MinRays, Application.MaxRays)
  }

  /** Both sliders, which see every mouse event. */
  datatype Controls = Controls(fov: Slider, rays: Slider)

  /** The mouse events of the window, in screen coordinates (y grows downwards). */
  datatype ScreenEvent = TouchDown(screenX: int, screenY: int)
                       | TouchDragged(screenX: int, screenY: int)
                       | TouchUp

  /** A screen event as a slider sees it: y is flipped to grow upwards. */
  function ToSlider(e: ScreenEvent): (r: Event)
    ensures e.TouchDown? <==> r.Press?
    ensures e.TouchDragged? <==> r.Move?
    ensures e.TouchUp? <==> r.Lift?
    ensures !e.TouchUp? ==> r.x == e.screenX && r.y + e.screenY == Application.ScreenHeight
  {
    match e
    case TouchDown(sx, sy) => Press(sx, Application.ScreenHeight - sy)
    case TouchDragged(sx, sy) => Move(sx, Application.ScreenHeight - sy)
    case TouchUp => Lift
  }

  /** The input listener: every event goes to the FOV slider and then to the ray slider. */
  function Dispatch(c: Controls, events: seq<ScreenEvent>): (r: Controls)
    ensures Valid(c.fov) ==> Valid(r.fov)
    ensures Valid(c.rays) ==> Valid(r.rays)
    ensures r.fov.minValue == c.fov.minValue && r.fov.maxValue == c.fov.maxValue
    ensures r.rays.minValue == c.rays.minValue && r.rays.maxValue == c.rays.maxValue
    decreases |events|
  {
    if events == [] then c
    else
      var e := ToSlider(events[0]);
      Dispatch(Controls(Apply(c.fov, e), Apply(c.rays, e)), events[1..])
  }

  /** The screen events as the sliders see them, one for one. */
  function ToSliderAll(events: seq<ScreenEvent>): (r: seq<Event>)
    ensures |r| == |events|
    ensures forall i | 0 <= i < |events| :: r[i] == ToSlider(events[i])
  {
    seq(|events|, i requires 0 <= i < |events| => ToSlider(events[i]))
  }

  // ---- Properties ------------------------------------------------------------

  /**
   The listener's routing: a touch-down clicks both sliders, a drag drags
   both, and a touch-up releases both, at the point with y flipped.
   */
  lemma DispatchRoutes(c: Controls, sx: int, sy: int)
    ensures Dispatch(c, [TouchDown(sx, sy)])
         == Controls(Click(c.fov, sx, Application.ScreenHeight - sy), Click(c.rays, sx, Application.ScreenHeight - sy))
    ensures Dispatch(c, [TouchDragged(sx, sy)])
         == Controls(Drag(c.fov, sx, Application.ScreenHeight - sy), Drag(c.rays, sx, Application.ScreenHeight - sy))
    ensures Dispatch(c, [TouchUp]) == Controls(Release(c.fov), Release(c.rays))
  {
    assert [TouchDown(sx, sy)][1..] == [];
    assert [TouchDragged(sx, sy)][1..] == [];
    assert [TouchUp][1..] == [];
  }

  /**
   Every event reaches both sliders, and neither slider's state depends on
   the other's: each ends where its own run of the translated events takes it.
   */
  lemma {:induction false} DispatchEachSlider(c: Controls, events: seq<ScreenEvent>)
    ensures Dispatch(c, events) == Controls(ApplyAll(c.fov, ToSliderAll(events)), ApplyAll(c.rays, ToSliderAll(events)))
    decreases |events|
  {
    if events != [] {
      var e := ToSlider(events[0]);
      DispatchEachSlider(Controls(Apply(c.fov, e), Apply(c.rays, e)), events[1..]);
      assert ToSliderAll(events)[0] == e;
      assert ToSliderAll(events)[1..] == ToSliderAll(events[1..]);
    }
  }

  /** A run of events followed by one more is the run, then that event. */
  lemma {:induction false} ApplyAllSnoc(s: Slider, events: seq<Event>, e: Event)
    ensures ApplyAll(s, events + [e]) == Apply(ApplyAll(s, events), e)
    decreases |events|
  {
    if events == [] {
      assert [e][1..] == [];
    } else {
      ApplyAllSnoc(Apply(s, events[0]), events[1..], e);
      assert (events + [e])[0] == events[0];
      assert (events + [e])[1..] == events[1..] + [e];
    }
  }

  /** Before any input the field of view is 70 degrees and there are 500 rays. */
  lemma InitialValues()
    ensures Value(FovSlider()) == 70
    ensures Value(RaysSlider()) == 500
  {
    assert Interpolated(FovSlider()) == 70.0;
    assert Interpolated(RaysSlider()) == 500.5;
  }

  /**
   Whatever the mouse does, the field of view stays in [20, 120] and the number
   of rays in [1, 1000], so every frame casts at least one ray.
   */
  lemma ValuesStayInRange(events: seq<ScreenEvent>)
    ensures var c := Dispatch(Controls(FovSlider(), RaysSlider()), events);
            && Application.MinFov <= Value(c.fov) <= Application.MaxFov
            && Application.MinRays <= Value(c.rays) <= Application.MaxRays
  {
  }

  /** Releasing and releasing again is the same as releasing once. */
  lemma ReleaseIdempotent(s: Slider)
    ensures Release(Release(s)) == Release(s)
  {
  }

  /** A click inside the box followed by a drag to the same place leaves the marker where it was. */
  lemma DragAfterClickStays(s: Slider, mx: int, my: int, my': int)
    requires InBox(s, mx, my)
    ensures Drag(Click(s, mx, my), mx, my') == Click(s, mx, my)
  {
  }
}
