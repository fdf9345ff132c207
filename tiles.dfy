/** Solid map tiles, background images and invisible walls. */
module Tiles {
  import opened Geometry
  import Object

  datatype StaticTile = StaticTile(Base: Object.Base, Image: Object.Image) {
    function Type(): Object.Type { Object.StaticTile }

    function Rectangle(): Rectangle { Base.Rectangle() }
  }

  /** `NewStaticTile`: integer sizes become real ones, so a tile's size is integral. */
  function NewStaticTile(origin: Point, width: int, height: int, img: Object.Image): (t: StaticTile)
    ensures t.Base.Origin == origin && t.Image == img
    ensures t.Base.Width == width as real && t.Base.Width.Floor == width
    ensures t.Base.Height == height as real && t.Base.Height.Floor == height
    ensures t.Rectangle() == Rectangle(origin.X, origin.Y, origin.X + width as real, origin.Y + height as real)
  {
    StaticTile(Object.Base(origin, width as real, height as real), img)
  }

  /** A static tile drawn behind everything; only its tag differs. */
  datatype BackgroundImage = BackgroundImage(Tile: StaticTile) {
    function Type(): Object.Type { Object.BackgroundImage }

    function Rectangle(): Rectangle { Tile.Rectangle() }
  }

  /** An invisible wall: a bare base with its own tag. */
  datatype InvWall = InvWall(Base: Object.Base) {
    function Type(): Object.Type { Object.InvWall }

    function Rectangle(): Rectangle { Base.Rectangle() }
  }

  /** A tile's image takes no part in its geometry. */
  lemma ImageIsNotGeometry(t: StaticTile, img: Object.Image)
    ensures t.(Image := img).Rectangle() == t.Rectangle()
    ensures BackgroundImage(t).Rectangle() == t.Rectangle()
  {
  }
}
