/**
 The viewer (`User`): a position in the map and a viewing direction in
 degrees, moved by the keys held down during a frame. Each axis of a move is
 taken only if it stays strictly inside the map, one pixel clear of its edges.
 */
module Movement {
  import opened Geometry
  import opened Trig
  import WorldMap

  /** Pixels per second. */
  const Speed: real := 200.0
  /** Degrees turned per frame with LEFT or RIGHT held, whatever the frame time. */
  const RotationSpeed: real := 1.5

  datatype User = User(position: Point, direction: real)

  /** The keys `update` polls, as the booleans the keyboard reports for one frame. */
  datatype Keys = Keys(w: bool, s: bool, a: bool, d: bool, left: bool, right: bool)

  /** The region the user is kept in: one pixel clear of every edge of the map. */
  predicate Inside(p: Point, m: WorldMap.Map) {
    && 1.0 < p.x < (WorldMap.GetWidth(m) - 1) as real
    && 1.0 < p.y < (WorldMap.GetHeight(m) - 1) as real
  }

  /** The user the application starts with. */
  function NewUser(): (u: User)
    ensures u.position == Point(300.0, 200.0) && u.direction == 0.0
    ensures forall m :: Inside(u.position, m)
  {
    User(Point(300.0, 200.0), 0.0)
  }

  /**
   Where a move at `angle` degrees for `deltaTime` seconds would take the
   user, ignoring the edges: `Speed * deltaTime` away along the unit vector
   of `angle`, and nowhere when no time has passed.
   */
  function Target(trig: Trig, u: User, angle: real, deltaTime: real): (t: Point)
    ensures deltaTime == 0.0 ==> t == u.position
    ensures var c, s := trig.cosDeg(angle), trig.sinDeg(angle);
            c * c + s * s == 1.0 ==> SqDist(u.position, t) == Sq(Speed * deltaTime)
  {
    var c, s := trig.cosDeg(angle), trig.sinDeg(angle);
    var t := Point(u.position.x + c * Speed * deltaTime, u.position.y + s * Speed * deltaTime);
    if c * c + s * s == 1.0 then
      var k := Speed * deltaTime;
      assert c * Speed * deltaTime == c * k && s * Speed * deltaTime == s * k;
      StepLength(c, s, k, u.position.x - t.x, u.position.y - t.y);
      t
    else t
  }

  /** A step of length `k` along a unit vector `(c, s)`, in either direction, has squared length `k * k`. */
  lemma StepLength(c: real, s: real, k: real, dx: real, dy: real)
    requires dx == -(c * k) && dy == -(s * k) && c * c + s * s == 1.0
    ensures dx * dx + dy * dy == k * k
  {
    assert dx * dx == (c * c) * (k * k);
    assert dy * dy == (s * s) * (k * k);
    assert (c * c) * (k * k) + (s * s) * (k * k) == (c * c + s * s) * (k * k);
  }

  /** One coordinate of `move`: `target` is taken only when strictly between 1 and `size - 1`. */
  function AxisStep(current: real, target: real, size: int): (r: real)
    ensures 1.0 < target < (size - 1) as real ==> r == target
    ensures !(1.0 < target < (size - 1) as real) ==> r == current
    ensures 1.0 < current < (size - 1) as real ==> 1.0 < r < (size - 1) as real
  {
    if target <= 1.0 || target >= (size - 1) as real then current else target
  }

  /**
   `move`: each axis independently goes to its target when that lies strictly
   inside the map and otherwise stays put; the direction is never changed, and
   a user inside the map stays inside.
   */
  function Move(trig: Trig, u: User, angle: real, deltaTime: real, m: WorldMap.Map): (v: User)
    ensures v.direction == u.direction
    ensures var t := Target(trig, u, angle, deltaTime);
            v.position.x == if 1.0 < t.x < (WorldMap.GetWidth(m) - 1) as real then t.x else u.position.x
    ensures var t := Target(trig, u, angle, deltaTime);
            v.position.y == if 1.0 < t.y < (WorldMap.GetHeight(m) - 1) as real then t.y else u.position.y
    ensures Inside(u.position, m) ==> Inside(v.position, m)
  {
    var target := Target(trig, u, angle, deltaTime);
    User(Point(AxisStep(u.position.x, target.x, WorldMap.GetWidth(m)),
               AxisStep(u.position.y, target.y, WorldMap.GetHeight(m))),
         u.direction)
  }

  /** The moves of one frame, one after another, each from where the previous one left the user. */
  function MoveAll(trig: Trig, u: User, angles: seq<real>, deltaTime: real, m: WorldMap.Map): (v: User)
    ensures v.direction == u.direction
    ensures Inside(u.position, m) ==> Inside(v.position, m)
    decreases |angles|
  {
    if angles == [] then u
    else MoveAll(trig, Move(trig, u, angles[0], deltaTime, m), angles[1..], deltaTime, m)
  }

  /**
   The position of a move in `update`'s order, by its offset from the
   mirrored direction: W (+90) first, then S (-90), A (+180) and D (0).
   */
  function KeyRank(offset: real): int {
    if offset == 90.0 then 0
    else if offset == -90.0 then 1
    else if offset == 180.0 then 2
    else 3
  }

  /** The one-move list for a key: its offset when the key is held, nothing otherwise. */
  function Held(held: bool, offset: real): seq<real> {
    if held then [offset] else []
  }

  /** Each move comes strictly later in `update`'s key order than the moves before it. */
  predicate InKeyOrder(offsets: seq<real>) {
    forall i, j | 0 <= i < j < |offsets| :: KeyRank(offsets[i]) < KeyRank(offsets[j])
  }

  predicate RankedBelow(offsets: seq<real>, r: int) {
    forall i | 0 <= i < |offsets| :: KeyRank(offsets[i]) < r
  }

  /** A move ranked after every move so far keeps the list in key order. */
  lemma AppendInOrder(offsets: seq<real>, held: bool, offset: real)
    requires InKeyOrder(offsets) && RankedBelow(offsets, KeyRank(offset))
    ensures InKeyOrder(offsets + Held(held, offset))
    ensures RankedBelow(offsets + Held(held, offset), KeyRank(offset) + 1)
    ensures forall x :: x in offsets + Held(held, offset) <==> x in offsets || (held && x == offset)
  {
  }

  /**
   The offsets of the moves `update` makes, for the keys held: one per held key
   among W (+90), S (-90), A (+180) and D (0), in that order.
   */
  function KeyOffsets(keys: Keys): (offsets: seq<real>)
    ensures |offsets| == (if keys.w then 1 else 0) + (if keys.s then 1 else 0)
                       + (if keys.a then 1 else 0) + (if keys.d then 1 else 0)
    ensures keys.w <==> 90.0 in offsets
    ensures keys.s <==> -90.0 in offsets
    ensures keys.a <==> 180.0 in offsets
    ensures keys.d <==> 0.0 in offsets
    ensures InKeyOrder(offsets)
  {
    var w := Held(keys.w, 90.0);
    assert forall x :: x in w <==> keys.w && x == 90.0;
    var ws := w + Held(keys.s, -90.0);
    var wsa := ws + Held(keys.a, 180.0);
    AppendInOrder(w, keys.s, -90.0);
    AppendInOrder(ws, keys.a, 180.0);
    AppendInOrder(wsa, keys.d, 0.0);
    wsa + Held(keys.d, 0.0)
  }

  /**
   The angles of the moves `update` makes: each key's offset added to the
   mirrored direction the frame started with, in W, S, A, D order.
   */
  function MoveAngles(direction: real, keys: Keys): (angles: seq<real>)
    ensures |angles| == |KeyOffsets(keys)|
    ensures forall i | 0 <= i < |angles| :: angles[i] + direction == KeyOffsets(keys)[i]
  {
    var offsets := KeyOffsets(keys);
    seq(|offsets|, i requires 0 <= i < |offsets| => direction * -1.0 + offsets[i])
  }

  /** The turns of `update`: LEFT first, then RIGHT, by a fixed step each. */
  function Turn(direction: real, keys: Keys): (d: real)
    ensures keys.left == keys.right ==> d == direction
    ensures keys.left && !keys.right ==> d < direction
    ensures keys.right && !keys.left ==> direction < d
  {
    var afterLeft := if keys.left then direction - RotationSpeed else direction;
    if keys.right then afterLeft + RotationSpeed else afterLeft
  }

  /** `update`: the moves for W, S, A and D, then the turns. */
  function Update(trig: Trig, u: User, keys: Keys, deltaTime: real, m: WorldMap.Map): (v: User)
    ensures Inside(u.position, m) ==> Inside(v.position, m)
    ensures !keys.left && !keys.right ==> v.direction == u.direction
  {
    var moved := MoveAll(trig, u, MoveAngles(u.direction, keys), deltaTime, m);
    moved.(direction := Turn(moved.direction, keys))
  }

  // ---- Properties ------------------------------------------------------------

  /** Running moves one list after another is running the concatenated list. */
  lemma {:induction false} MovesCompose(trig: Trig, u: User, first: seq<real>, second: seq<real>,
                                        deltaTime: real, m: WorldMap.Map)
    ensures MoveAll(trig, u, first + second, deltaTime, m)
         == MoveAll(trig, MoveAll(trig, u, first, deltaTime, m), second, deltaTime, m)
    decreases |first|
  {
    if first == [] {
      assert first + second == second;
    } else {
      assert (first + second)[0] == first[0];
      assert (first + second)[1..] == first[1..] + second;
      MovesCompose(trig, Move(trig, u, first[0], deltaTime, m), first[1..], second, deltaTime, m);
    }
  }

  /**
   The turn keys do not change where the user ends up this frame: every move
   uses the direction the frame started with, and the turns come after.
   The direction changes by 1.5 per turn key, whatever the frame time.
   */
  lemma TurnsAfterMoves(trig: Trig, u: User, keys: Keys, deltaTime: real, deltaTime': real, m: WorldMap.Map)
    ensures var still := keys.(left := false, right := false);
            Update(trig, u, keys, deltaTime, m).position == Update(trig, u, still, deltaTime, m).position
    ensures Update(trig, u, keys, deltaTime, m).direction == Update(trig, u, keys, deltaTime', m).direction
    ensures Update(trig, u, keys, deltaTime, m).direction
         == u.direction - (if keys.left then RotationSpeed else 0.0) + (if keys.right then RotationSpeed else 0.0)
  {
  }

  /**
   W and S together undo each other when neither move is stopped at an edge,
   given that `cos` and `sin` change sign over half a turn.
   */
  lemma ForwardBackCancel(trig: Trig, u: User, deltaTime: real, m: WorldMap.Map)
    requires var d := u.direction;
             && trig.cosDeg(d * -1.0 - 90.0) == -trig.cosDeg(d * -1.0 + 90.0)
             && trig.sinDeg(d * -1.0 - 90.0) == -trig.sinDeg(d * -1.0 + 90.0)
    requires Inside(u.position, m)
    requires Inside(Target(trig, u, u.direction * -1.0 + 90.0, deltaTime), m)
    ensures Update(trig, u, Keys(true, true, false, false, false, false), deltaTime, m) == u
  {
    var d := u.direction;
    var forward := Move(trig, u, d * -1.0 + 90.0, deltaTime, m);
    var c, s := trig.cosDeg(d * -1.0 + 90.0), trig.sinDeg(d * -1.0 + 90.0);
    NegatedStep(c, deltaTime);
    NegatedStep(s, deltaTime);
    assert forward.position == Target(trig, u, d * -1.0 + 90.0, deltaTime);
    var back := Target(trig, forward, d * -1.0 - 90.0, deltaTime);
    assert back == u.position;
    var returned := Move(trig, forward, d * -1.0 - 90.0, deltaTime, m);
    assert returned == u;
    var angles := MoveAngles(d, Keys(true, true, false, false, false, false));
    assert angles == [d * -1.0 + 90.0, d * -1.0 - 90.0];
    assert angles[1..][1..] == [];
    assert MoveAll(trig, u, angles, deltaTime, m) == MoveAll(trig, forward, angles[1..], deltaTime, m);
    assert MoveAll(trig, forward, angles[1..], deltaTime, m) == MoveAll(trig, returned, [], deltaTime, m);
  }

  /**
   With W and A held, `update` makes the W move first and then the A move
   from wherever the W move left the user, both at the starting direction.
   */
  lemma ForwardThenLeft(trig: Trig, u: User, deltaTime: real, m: WorldMap.Map)
    ensures Update(trig, u, Keys(true, false, true, false, false, false), deltaTime, m)
         == Move(trig, Move(trig, u, u.direction * -1.0 + 90.0, deltaTime, m),
                 u.direction * -1.0 + 180.0, deltaTime, m)
  {
    var keys := Keys(true, false, true, false, false, false);
    var d := u.direction;
    assert KeyOffsets(keys) == [90.0, 180.0];
    var angles := MoveAngles(d, keys);
    assert angles == [d * -1.0 + 90.0, d * -1.0 + 180.0];
    var first := Move(trig, u, angles[0], deltaTime, m);
    assert angles[1..][1..] == [];
    assert MoveAll(trig, u, angles, deltaTime, m) == MoveAll(trig, first, angles[1..], deltaTime, m);
    assert MoveAll(trig, first, angles[1..], deltaTime, m)
        == MoveAll(trig, Move(trig, first, angles[1], deltaTime, m), [], deltaTime, m);
  }

  lemma NegatedStep(c: real, deltaTime: real)
    ensures (-c) * Speed * deltaTime == -(c * Speed * deltaTime)
  {
  }

  /** One frame of input: the keys held and the time it took. */
  datatype Frame = Frame(keys: Keys, deltaTime: real)

  /** The user after a run of frames, one `update` per frame. */
  function Play(trig: Trig, u: User, frames: seq<Frame>, m: WorldMap.Map): (v: User)
    ensures Inside(u.position, m) ==> Inside(v.position, m)
    decreases |frames|
  {
    if frames == [] then u
    else Play(trig, Update(trig, u, frames[0].keys, frames[0].deltaTime, m), frames[1..], m)
  }

  /** A run of frames followed by one more is the run, then that frame's `update`. */
  lemma {:induction false} PlaySnoc(trig: Trig, u: User, frames: seq<Frame>, f: Frame, m: WorldMap.Map)
    ensures Play(trig, u, frames + [f], m) == Update(trig, Play(trig, u, frames, m), f.keys, f.deltaTime, m)
    decreases |frames|
  {
    if frames == [] {
      assert [f][1..] == [];
    } else {
      PlaySnoc(trig, Update(trig, u, frames[0].keys, frames[0].deltaTime, m), frames[1..], f, m);
      assert (frames + [f])[0] == frames[0];
      assert (frames + [f])[1..] == frames[1..] + [f];
    }
  }

  /** From the start of the application, the user never leaves the map, whatever keys are pressed. */
  lemma AlwaysInside(trig: Trig, frames: seq<Frame>)
    ensures Inside(Play(trig, NewUser(), frames, WorldMap.NewMap()).position, WorldMap.NewMap())
    ensures WorldMap.InArena(Play(trig, NewUser(), frames, WorldMap.NewMap()).position)
  {
  }
}
