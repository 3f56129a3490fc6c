/**
 The transcendental functions of `java.lang.Math` the raycaster uses. They are
 not computed: a `Trig` value carries them as arbitrary total functions, and a
 member that needs one of their properties states it as a precondition.
 Angles are in degrees, so `cosDeg(a)` stands for `cos(toRadians(a))` and
 `atanDeg(x)` for `toDegrees(atan(x))`.
 */
module Trig {

  datatype Trig = Trig(
    sinDeg: real -> real,
    cosDeg: real -> real,
    tanDeg: real -> real,
    atanDeg: real -> real,
    sqrt: real -> real)

  /** `root` is the non-negative square root of `x`. */
  predicate IsSqrtOf(root: real, x: real) {
    0.0 <= root && root * root == x
  }

  /** `f` is strictly increasing and non-negative on the non-negative reals, as `Math.sqrt` is. */
  ghost predicate MonotoneRoot(f: real -> real) {
    (forall a :: 0.0 <= a ==> 0.0 <= f(a))
    && (forall a, b :: 0.0 <= a < b ==> f(a) < f(b))
  }

  /** `f` is an odd function, as `atan` is. */
  ghost predicate IsOdd(f: real -> real) {
    forall x :: f(-x) == -f(x)
  }
}
