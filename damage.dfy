/** Entities that hurt the player: spikes and enemy bullets. */
module Damage {
  import opened Geometry
  import Object

  /** The damage of every spike. */
  const SpikeDamage: int := 100

  const BulletWidth: real := 1.0
  const BulletHeight: real := 1.0

  datatype Spike = Spike(Base: Object.Base, Damage: int, Image: Object.Image) {
    function Type(): Object.Type { Object.Spike }

    function Rectangle(): Rectangle { Base.Rectangle() }
  }

  /** `NewSpike`: placed by the arguments, always with damage 100. */
  function NewSpike(origin: Point, img: Object.Image, width: real, height: real): (s: Spike)
    ensures s.Base == Object.Base(origin, width, height) && s.Image == img
    ensures s.Damage == 100
    ensures s.Rectangle() == Rectangle(origin.X, origin.Y, origin.X + width, origin.Y + height)
    ensures s.Type() == Object.Spike
  {
    Spike(Object.Base(origin, width, height), SpikeDamage, img)
  }

  /** A bullet; `Triggered` records that it has already hit the player. */
  datatype Bullet = Bullet(
    Base: Object.Base,
    Image: Object.Image,
    Damage: int,
    Direction: Vector,
    Triggered: bool)
  {
    function Type(): Object.Type { Object.EnemyBullet }

    function Rectangle(): Rectangle { Base.Rectangle() }
  }

  /** `NewBullet`: a 1×1 untriggered bullet with the given damage and direction. */
  function NewBullet(origin: Point, img: Object.Image, damage: int, direction: Vector): (b: Bullet)
    ensures b.Base.Origin == origin && b.Base.Width == 1.0 && b.Base.Height == 1.0
    ensures b.Damage == damage && b.Direction == direction && !b.Triggered
    ensures b.Image == img
    ensures b.Type() == Object.EnemyBullet
  {
    Bullet(Object.Base(origin, BulletWidth, BulletHeight), img, damage, direction, false)
  }

  /** The MessagePack forms: a spike without its image, a bullet without its image and damage. */
  datatype SpikeMsgpack = SpikeMsgpack(Base: Object.Base, Damage: int)
  datatype BulletMsgpack = BulletMsgpack(Base: Object.Base, Direction: Vector, Triggered: bool)

  function SpikeToMsgpack(s: Spike): (m: SpikeMsgpack)
    ensures m.Base == s.Base && m.Damage == s.Damage
  {
    SpikeMsgpack(s.Base, s.Damage)
  }

  function BulletToMsgpack(b: Bullet): (m: BulletMsgpack)
    ensures m.Base == b.Base && m.Direction == b.Direction && m.Triggered == b.Triggered
  {
    BulletMsgpack(b.Base, b.Direction, b.Triggered)
  }

  lemma MsgpackExclusions(s: Spike, b: Bullet, img: Object.Image, d: int)
    ensures SpikeToMsgpack(s.(Image := img)) == SpikeToMsgpack(s)
    ensures BulletToMsgpack(b.(Image := img, Damage := d)) == BulletToMsgpack(b)
  {
  }
}
