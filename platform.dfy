/**
 * Moving platforms that oscillate along one axis between `start` and `end`.
 * Reaching a bound clamps the platform there and schedules an acceleration
 * of minus twice the speed, which is applied on the platform's next move, so
 * the reversal becomes visible one tick later.
 */
module Platforms {
  import opened Geometry
  import Object
  import Physics

  datatype PlatformPath = PathVertical | PathHorizontal

  /** Everything a move reads or writes. */
  datatype PlatformState = PlatformState(
    Origin: Point,
    Speed: Vector,
    Acceleration: Vector,
    NextAcceleration: Vector,
    Start: real,
    End: real,
    Path: PlatformPath)
  {
    /** The coordinate along the path. */
    function Current(): real {
      if Path == PathHorizontal then Origin.X else Origin.Y
    }

    /** The speed along the path. */
    function PathSpeed(): real {
      if Path == PathVertical then Speed.Y else Speed.X
    }

    /** `move`: advance along the path by the speed, clamping at a bound and scheduling the bounce. */
    function Move(): PlatformState {
      var cur, speed := Current(), PathSpeed();
      var next := cur + speed;
      var clampHigh := speed > 0.0 && next > End;
      var clampLow := !clampHigh && speed < 0.0 && next < Start;
      var next' := if clampHigh then End else if clampLow then Start else next;
      var nextAcc := if clampHigh || clampLow then Speed.Neg().Multiply(2.0) else NextAcceleration;
      var origin := if Path == PathVertical then Origin.(Y := next') else Origin.(X := next');
      this.(Origin := origin, NextAcceleration := nextAcc)
    }

    /** `MoveX`: apply the deferred horizontal acceleration, then move if horizontal. */
    function MoveX(): PlatformState {
      var s := this.(Acceleration := Acceleration.(X := NextAcceleration.X));
      var s := s.(Speed := s.Speed.(X := s.Speed.X + s.Acceleration.X));
      var s := s.(NextAcceleration := s.NextAcceleration.(X := 0.0));
      if Path == PathHorizontal then s.Move() else s
    }

    /** `MoveY`: apply the deferred vertical acceleration, then move if vertical. */
    function MoveY(): PlatformState {
      var s := this.(Acceleration := Acceleration.(Y := NextAcceleration.Y));
      var s := s.(Speed := s.Speed.(Y := s.Speed.Y + s.Acceleration.Y));
      var s := s.(NextAcceleration := s.NextAcceleration.(Y := 0.0));
      if Path == PathVertical then s.Move() else s
    }
  }

  /** The state `platform.New` builds. */
  function NewState(origin: Point, path: PlatformPath, distance: int, speed: int): (p: PlatformState)
    ensures path == PathHorizontal ==>
              p.Start == origin.X && p.End == origin.X + distance as real && p.Speed == Vector(speed as real, 0.0)
    ensures path == PathVertical ==>
              p.Start == origin.Y - distance as real && p.End == origin.Y && p.Speed == Vector(0.0, speed as real)
    ensures p.Origin == origin && p.Acceleration == Zero && p.NextAcceleration == Zero && p.Path == path
  {
    var start := if path == PathVertical then origin.Y - distance as real else origin.X;
    var speedVector := if path == PathVertical then Vector(0.0, speed as real) else Vector(speed as real, 0.0);
    PlatformState(origin, speedVector, Zero, Zero, start, start + distance as real, path)
  }

  class Platform {
    var Base: Object.Base
    const Image: Object.Image
    const Physical: Physics.Physical
    var nextAcceleration: Vector
    const start: real
    const end: real
    const Path: PlatformPath

    function State(): PlatformState
      reads this, Physical
    {
      PlatformState(Base.Origin, Physical.Speed, Physical.Acceleration, nextAcceleration, start, end, Path)
    }

    constructor (origin: Point, width: int, height: int, image: Object.Image,
                 path: PlatformPath, distance: int, speed: int)
      ensures State() == NewState(origin, path, distance, speed)
      ensures Base == Object.Base(origin, width as real, height as real) && Image == image
      ensures fresh(Physical)
    {
      var s := if path == PathVertical then origin.Y - distance as real else origin.X;
      var speedVector := if path == PathVertical then Vector(0.0, speed as real) else Vector(speed as real, 0.0);
      Base := Object.Base(origin, width as real, height as real);
      Image := image;
      Physical := new Physics.Physical.Init(speedVector, Zero);
      nextAcceleration := Zero;
      start := s;
      end := s + distance as real;
      Path := path;
    }

    method MoveX()
      modifies this, Physical
      ensures State() == old(State()).MoveX()
      ensures Base.Width == old(Base.Width) && Base.Height == old(Base.Height)
    {
      Physical.Acceleration := Physical.Acceleration.(X := nextAcceleration.X);
      Physical.ApplyAccelerationX();
      nextAcceleration := nextAcceleration.(X := 0.0);
      if Path == PathHorizontal {
        Move();
      }
    }

    method MoveY()
      modifies this, Physical
      ensures State() == old(State()).MoveY()
      ensures Base.Width == old(Base.Width) && Base.Height == old(Base.Height)
    {
      Physical.Acceleration := Physical.Acceleration.(Y := nextAcceleration.Y);
      Physical.ApplyAccelerationY();
      nextAcceleration := nextAcceleration.(Y := 0.0);
      if Path == PathVertical {
        Move();
      }
    }

    method Move()
      modifies this
      ensures State() == old(State()).Move()
      ensures Base.Width == old(Base.Width) && Base.Height == old(Base.Height)
    {
      var cur := Base.Origin.Y;
      if Path == PathHorizontal {
        cur := Base.Origin.X;
      }
      var speed := Physical.Speed.X;
      if Path == PathVertical {
        speed := Physical.Speed.Y;
      }
      var next := cur + speed;
      if speed > 0.0 && next > end {
        nextAcceleration := Physical.Speed.Neg().Multiply(2.0);
        next := end;
      } else if speed < 0.0 && next < start {
        nextAcceleration := Physical.Speed.Neg().Multiply(2.0);
        next := start;
      }
      if Path == PathVertical {
        Base := Base.(Origin := Base.Origin.(Y := next));
      } else {
        Base := Base.(Origin := Base.Origin.(X := next));
      }
    }
  }

  // ---- Properties -----------------------------------------------------------

  predicate InBounds(s: PlatformState) {
    s.Start <= s.Current() <= s.End
  }

  /** A move inside the bounds stays inside them; without crossing one it advances by the speed. */
  lemma MoveStaysInBounds(s: PlatformState)
    requires InBounds(s)
    ensures InBounds(s.Move())
    ensures s.Start <= s.Current() + s.PathSpeed() <= s.End ==>
              s.Move().Current() == s.Current() + s.PathSpeed() && s.Move().NextAcceleration == s.NextAcceleration
  {
  }

  /** The move ends at a bound it would otherwise cross. */
  predicate Clamps(s: PlatformState) {
    (s.PathSpeed() > 0.0 && s.Current() + s.PathSpeed() > s.End) ||
    (s.PathSpeed() < 0.0 && s.Current() + s.PathSpeed() < s.Start)
  }

  /** On clamping, the bounce is only scheduled: the speed itself is unchanged in that move. */
  lemma ClampSchedulesBounce(s: PlatformState)
    requires Clamps(s)
    ensures s.Move().Speed == s.Speed
    ensures s.Move().NextAcceleration == Vector(-2.0 * s.Speed.X, -2.0 * s.Speed.Y)
    ensures s.Move().Current() == (if s.PathSpeed() > 0.0 then s.End else s.Start)
  {
  }

  /** A move changes only the path coordinate and the scheduled acceleration. */
  lemma MoveKeepsOffPath(s: PlatformState)
    ensures s.Path == PathHorizontal ==> s.Move().Origin.Y == s.Origin.Y
    ensures s.Path == PathVertical ==> s.Move().Origin.X == s.Origin.X
    ensures s.Move().Speed == s.Speed && s.Move().Acceleration == s.Acceleration
    ensures s.Move().Start == s.Start && s.Move().End == s.End && s.Move().Path == s.Path
  {
  }

  /** `MoveX` moves only horizontal platforms and `MoveY` only vertical ones. */
  lemma MovesFollowPath(s: PlatformState)
    ensures s.Path == PathVertical ==> s.MoveX().Origin == s.Origin
    ensures s.Path == PathHorizontal ==> s.MoveY().Origin == s.Origin
    ensures s.MoveX().Origin.Y == s.Origin.Y && s.MoveY().Origin.X == s.Origin.X
    ensures s.MoveX().NextAcceleration.Y == s.NextAcceleration.Y || s.Path == PathHorizontal
  {
  }

  /** The bounce a clamp scheduled turns the speed around on the next move, keeping its magnitude. */
  lemma DeferredBounce(s: PlatformState)
    requires s.Path == PathHorizontal
    requires Clamps(s)
    ensures var t := s.Move().MoveY().MoveX();
            t.Speed.X == -s.Speed.X && t.Acceleration.X == -2.0 * s.Speed.X
  {
    ClampSchedulesBounce(s);
  }

  /** One engine-style tick of a platform: horizontal move, then vertical move. */
  function Tick(s: PlatformState): PlatformState {
    s.MoveX().MoveY()
  }

  function Ticks(s: PlatformState, n: nat): PlatformState
    decreases n
  {
    if n == 0 then s else Tick(Ticks(s, n - 1))
  }

  /**
   * What a horizontal platform keeps over time: it stays within its bounds,
   * its speed keeps magnitude `m`, and a scheduled bounce always reverses the
   * current speed.
   */
  predicate Oscillating(s: PlatformState, m: real) {
    s.Path == PathHorizontal && InBounds(s) && s.Speed.Y == 0.0 && s.NextAcceleration.Y == 0.0 &&
    (s.Speed.X == m || s.Speed.X == -m) &&
    (s.NextAcceleration.X == 0.0 || s.NextAcceleration.X == -2.0 * s.Speed.X)
  }

  lemma TickKeepsOscillating(s: PlatformState, m: real)
    requires Oscillating(s, m)
    ensures Oscillating(Tick(s), m)
  {
    var a := s.MoveX();
    assert a.Speed.X == m || a.Speed.X == -m;
    MoveStaysInBounds(s.(Acceleration := a.Acceleration, Speed := a.Speed,
                         NextAcceleration := s.NextAcceleration.(X := 0.0)));
  }

  /** A new horizontal platform with `distance >= 0` oscillates within `[X, X + distance]` forever. */
  lemma {:induction false} PlatformStaysOnPath(origin: Point, distance: int, speed: int, n: nat)
    requires distance >= 0
    ensures var s := Ticks(NewState(origin, PathHorizontal, distance, speed), n);
            origin.X <= s.Origin.X <= origin.X + distance as real && s.Origin.Y == origin.Y &&
            (s.Speed.X == speed as real || s.Speed.X == -(speed as real))
    decreases n
  {
    var s0 := NewState(origin, PathHorizontal, distance, speed);
    OscillatesForever(s0, speed as real, n);
    OffPathForever(s0, n);
  }

  lemma {:induction false} OscillatesForever(s: PlatformState, m: real, n: nat)
    requires Oscillating(s, m)
    ensures Oscillating(Ticks(s, n), m) && Ticks(s, n).Start == s.Start && Ticks(s, n).End == s.End
    decreases n
  {
    if n > 0 {
      OscillatesForever(s, m, n - 1);
      TickKeepsOscillating(Ticks(s, n - 1), m);
    }
  }

  lemma {:induction false} OffPathForever(s: PlatformState, n: nat)
    requires s.Path == PathHorizontal
    ensures Ticks(s, n).Origin.Y == s.Origin.Y && Ticks(s, n).Path == PathHorizontal
    decreases n
  {
    if n > 0 {
      OffPathForever(s, n - 1);
      MovesFollowPath(Ticks(s, n - 1));
      MoveKeepsOffPath(Ticks(s, n - 1).MoveX().(Speed := Ticks(s, n - 1).MoveX().Speed));
    }
  }
}
