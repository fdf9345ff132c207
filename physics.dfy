/** Speed and acceleration of a moving entity, updated in place once per tick. */
module Physics {
  import opened Geometry

  /** Downward acceleration per tick, in pixels per tick squared. */
  const GravityAcceleration: real := 1.0 * 2.0 / 6.0

  lemma GravityIsOneThird()
    ensures GravityAcceleration == 1.0 / 3.0
    ensures 3.0 * GravityAcceleration == 1.0
  {
  }

  class Physical {
    var Speed: Vector
    var Acceleration: Vector

    /** `NewPhysical`: at rest, with no acceleration. */
    constructor ()
      ensures Speed == Zero && Acceleration == Zero
    {
      Speed := Zero;
      Acceleration := Zero;
    }

    /** A physical state with the given initial values. */
    constructor Init(speed: Vector, acceleration: Vector)
      ensures Speed == speed && Acceleration == acceleration
    {
      Speed := speed;
      Acceleration := acceleration;
    }

    /** Adds the horizontal acceleration to the horizontal speed; nothing else changes. */
    method ApplyAccelerationX()
      modifies this
      ensures Speed == Vector(old(Speed).X + old(Acceleration).X, old(Speed).Y)
      ensures Acceleration == old(Acceleration)
    {
      Speed := Speed.(X := Speed.X + Acceleration.X);
    }

    /** Adds the vertical acceleration to the vertical speed; nothing else changes. */
    method ApplyAccelerationY()
      modifies this
      ensures Speed == Vector(old(Speed).X, old(Speed).Y + old(Acceleration).Y)
      ensures Acceleration == old(Acceleration)
    {
      Speed := Speed.(Y := Speed.Y + Acceleration.Y);
    }
  }

  /** The speed after both apply operations, X first: the sum of speed and acceleration. */
  function Accelerated(speed: Vector, acceleration: Vector): (r: Vector)
    ensures r == speed.Add(acceleration)
    ensures acceleration == Zero ==> r == speed
  {
    Vector(speed.X + acceleration.X, speed.Y + acceleration.Y)
  }

  /** Applying both axes in sequence on an object equals `Accelerated`. */
  method ApplyAcceleration(p: Physical)
    modifies p
    ensures p.Speed == Accelerated(old(p.Speed), old(p.Acceleration))
    ensures p.Speed == old(p.Speed).Add(old(p.Acceleration))
    ensures p.Acceleration == old(p.Acceleration)
  {
    p.ApplyAccelerationX();
    p.ApplyAccelerationY();
  }
}
