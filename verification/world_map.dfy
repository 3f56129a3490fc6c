/**
 The arena: four boundary walls around a `Width` x `Height` rectangle plus
 three interior walls. It is built once and never changed.
 */
module WorldMap {
  import opened Geometry
  import Application

  /** The map's own WIDTH and HEIGHT constants: the top-down view is the left half of the window. */
  const Width: int := Application.ScreenWidth / 2
  const Height: int := Application.ScreenHeight

  datatype Map = Map(walls: seq<Wall>)

  /** `getWidth`, which recomputes the width from the window size rather than reading `Width`. */
  function GetWidth(m: Map): (w: int)
    ensures w == Width == 480
  {
    Application.ScreenWidth / 2
  }

  function GetHeight(m: Map): (h: int)
    ensures h == Height == 480
  {
    Application.ScreenHeight
  }

  /** The first four walls form a closed loop: each ends where the next one starts. */
  predicate ClosedBoundary(walls: seq<Wall>)
    requires 4 <= |walls|
  {
    forall i | 0 <= i < 4 :: walls[i].End() == walls[(i + 1) % 4].Start()
  }

  /** The first four walls run along x = 0, y = Height - 1, x = Width - 1 and y = 0, in that order. */
  predicate OnArenaEdges(walls: seq<Wall>)
    requires 4 <= |walls|
  {
    var right := (Width - 1) as real;
    var top := (Height - 1) as real;
    && walls[0].x1 == walls[0].x2 == 0.0
    && walls[1].y1 == walls[1].y2 == top
    && walls[2].x1 == walls[2].x2 == right
    && walls[3].y1 == walls[3].y2 == 0.0
  }

  predicate InArena(p: Point) {
    0.0 <= p.x <= (Width - 1) as real && 0.0 <= p.y <= (Height - 1) as real
  }

  /** The four walls around the arena, each ending where the next begins. */
  function Boundary(): (ws: seq<Wall>)
    ensures |ws| == 4
    ensures ClosedBoundary(ws)
    ensures OnArenaEdges(ws)
    ensures ws[0].Start() == Point(0.0, 0.0)
  {
    var right := (Width - 1) as real;
    var top := (Height - 1) as real;
    assert right == 479.0 && top == 479.0;
    [ Wall(0.0, 0.0, 0.0, top),
      Wall(0.0, top, right, top),
      Wall(right, top, right, 0.0),
      Wall(right, 0.0, 0.0, 0.0) ]
  }

  /** The three walls placed inside the arena. */
  function Interior(): (ws: seq<Wall>)
    ensures |ws| == 3
  {
    [ Wall(280.0, 240.0, 335.0, 220.0),
      Wall(50.0, 150.0, 290.0, 280.0),
      Wall(350.0, 70.0, 470.0, 130.0) ]
  }

  /** The map built by the constructor. */
  function NewMap(): (m: Map)
    ensures |m.walls| == 7
    ensures m.walls[..4] == Boundary()
    ensures ClosedBoundary(m.walls)
    ensures OnArenaEdges(m.walls)
    ensures forall i | 0 <= i < |m.walls| :: m.walls[i].Start() != m.walls[i].End()
    ensures forall i | 0 <= i < |m.walls| :: InArena(m.walls[i].Start()) && InArena(m.walls[i].End())
  {
    var ws := Boundary() + Interior();
    assert ws[..4] == Boundary();
    WallsPlaced(ws);
    Map(ws)
  }

  /** Every wall of the constructed map is a proper segment inside the arena. */
  lemma WallsPlaced(ws: seq<Wall>)
    requires ws == Boundary() + Interior()
    ensures forall i | 0 <= i < |ws| :: ws[i].Start() != ws[i].End()
    ensures forall i | 0 <= i < |ws| :: InArena(ws[i].Start()) && InArena(ws[i].End())
  {
    forall i | 0 <= i < |ws|
      ensures ws[i].Start() != ws[i].End()
      ensures InArena(ws[i].Start()) && InArena(ws[i].End())
    {
      if i < 4 {
        assert ws[i] == Boundary()[i];
      } else {
        assert ws[i] == Interior()[i - 4];
      }
    }
  }
}
