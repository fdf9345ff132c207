/**
 * The entity model shared by every object of a level: a type tag and a
 * positioned, sized `Base` whose origin is its top-left corner.
 */
module Object {
  import opened Geometry
  import opened Wrappers

  /**
   * The tag every entity reports from `Type()`. The first ten variants are
   * the iota constants of object.go in declaration order; `InvWall` is the
   * tag the engine filters for invisible walls, which object.go does not
   * declare (the wall package is not part of this model).
   */
  datatype Type =
    | BackgroundImage
    | StaticTile
    | Player
    | Item
    | Portal
    | Spike
    | NPC
    | ArcadeMachine
    | EnemyBullet
    | Arcade
    | InvWall

  /** The integer value of a tag; `InvWall` takes the next free one. */
  function Ordinal(t: Type): (n: nat)
    ensures n <= 10
  {
    match t
    case BackgroundImage => 0
    case StaticTile => 1
    case Player => 2
    case Item => 3
    case Portal => 4
    case Spike => 5
    case NPC => 6
    case ArcadeMachine => 7
    case EnemyBullet => 8
    case Arcade => 9
    case InvWall => 10
  }

  /** The inverse of `Ordinal`. */
  function TypeOf(n: nat): (t: Option<Type>)
    ensures t.Some? <==> n <= 10
    ensures t.Some? ==> Ordinal(t.value) == n
  {
    if n == 0 then Some(BackgroundImage)
    else if n == 1 then Some(StaticTile)
    else if n == 2 then Some(Player)
    else if n == 3 then Some(Item)
    else if n == 4 then Some(Portal)
    else if n == 5 then Some(Spike)
    else if n == 6 then Some(NPC)
    else if n == 7 then Some(ArcadeMachine)
    else if n == 8 then Some(EnemyBullet)
    else if n == 9 then Some(Arcade)
    else if n == 10 then Some(InvWall)
    else None
  }

  /** The tags are pairwise distinct constants: the ordinal determines the tag. */
  lemma OrdinalInjective(a: Type, b: Type)
    ensures Ordinal(a) == Ordinal(b) <==> a == b
    ensures TypeOf(Ordinal(a)) == Some(a)
  {
    assert TypeOf(Ordinal(a)) == Some(a) by {
      match a
      case BackgroundImage =>
      case StaticTile =>
      case Player =>
      case Item =>
      case Portal =>
      case Spike =>
      case NPC =>
      case ArcadeMachine =>
      case EnemyBullet =>
      case Arcade =>
      case InvWall =>
    }
    assert TypeOf(Ordinal(b)) == Some(b) by {
      match b
      case BackgroundImage =>
      case StaticTile =>
      case Player =>
      case Item =>
      case Portal =>
      case Spike =>
      case NPC =>
      case ArcadeMachine =>
      case EnemyBullet =>
      case Arcade =>
      case InvWall =>
    }
  }

  /** A handle to a sprite image; images take no part in the simulation. */
  type Image = nat

  /**
   * The position and size of an entity. The source shares this record by
   * pointer and moves it in place; here it is a value and every owner stores
   * the moved copy back.
   */
  datatype Base = Base(Origin: Point, Width: real, Height: real) {

    /** The area covered: from the origin to the origin plus the size. */
    function Rectangle(): (r: Geometry.Rectangle)
      ensures r.LeftX == Origin.X && r.TopY == Origin.Y
      ensures r.RightX - r.LeftX == Width && r.BottomY - r.TopY == Height
    {
      Geometry.Rectangle(Origin.X, Origin.Y, Origin.X + Width, Origin.Y + Height)
    }

    /** The same entity shifted by `d`. */
    function Move(d: Vector): (b: Base)
      ensures b.Width == Width && b.Height == Height
      ensures b.Rectangle() == Rectangle().AddVector(d)
    {
      Base(Origin.Add(d), Width, Height)
    }

    /** The same entity placed at `p`. */
    function MoveTo(p: Point): (b: Base)
      ensures b.Origin == p && b.Width == Width && b.Height == Height
    {
      Base(p, Width, Height)
    }
  }

  /** `GetOrigin` on a possibly missing base: a missing base has no origin. */
  function GetOrigin(b: Option<Base>): (p: Option<Point>)
    ensures p.None? <==> b.None?
    ensures b.Some? ==> p == Some(b.value.Origin)
  {
    match b
    case None => None
    case Some(base) => Some(base.Origin)
  }

  /** A base with non-negative size covers a well-formed rectangle. */
  lemma RectangleWellFormed(b: Base)
    ensures b.Width >= 0.0 && b.Height >= 0.0 <==> WellFormed(b.Rectangle())
    ensures b.Width > 0.0 && b.Height > 0.0 <==> NonEmpty(b.Rectangle())
  {
  }

  /** Moving by `d` and then by `-d` restores the origin. */
  lemma MoveUndo(b: Base, d: Vector)
    ensures b.Move(d).Move(d.Neg()) == b
  {
  }

  /** Moving twice is moving once by the sum. */
  lemma MoveCompose(b: Base, d: Vector, e: Vector)
    ensures b.Move(d).Move(e) == b.Move(d.Add(e))
  {
  }

  /** `MoveTo` forgets where the entity was. */
  lemma MoveToForgets(b: Base, c: Base, p: Point)
    requires b.Width == c.Width && b.Height == c.Height
    ensures b.MoveTo(p) == c.MoveTo(p)
    ensures b.MoveTo(p).MoveTo(p) == b.MoveTo(p)
  {
  }
}
