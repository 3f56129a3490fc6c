/** The fixed window size and slider ranges of the application. */
module Application {

  const ScreenWidth: int := 960
  const ScreenHeight: int := 480

  const MinFov: int := 20
  const MaxFov: int := 120
  const MinRays: int := 1
  const MaxRays: int := 1000
}
