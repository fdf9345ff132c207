/** Portals that teleport the player to another portal of the level. */
module Portals {
  import opened Geometry
  import opened Wrappers
  import Object

  /** `TeleportTo` is `None` until the engine links the portal to its destination. */
  datatype Portal = Portal(
    Base: Object.Base,
    Image: Object.Image,
    PortalTo: string,
    TeleportTo: Option<Point>,
    Boss: string)
  {
    function Type(): Object.Type { Object.Portal }

    function Rectangle(): Rectangle { Base.Rectangle() }

    predicate Linked() { TeleportTo.Some? }
  }

  /** `portal.New`: every argument is stored verbatim. */
  function New(origin: Point, img: Object.Image, width: real, height: real,
               portalTo: string, teleportTo: Option<Point>, boss: string): (p: Portal)
    ensures p.Base == Object.Base(origin, width, height) && p.Image == img
    ensures p.PortalTo == portalTo && p.TeleportTo == teleportTo && p.Boss == boss
    ensures p.Linked() <==> teleportTo.Some?
    ensures p.Type() == Object.Portal
  {
    Portal(Object.Base(origin, width, height), img, portalTo, teleportTo, boss)
  }

  /** The MessagePack form: every field but the image. */
  datatype PortalMsgpack = PortalMsgpack(Base: Object.Base, PortalTo: string, TeleportTo: Option<Point>, Boss: string)

  function ToMsgpack(p: Portal): (m: PortalMsgpack)
    ensures m.Base == p.Base && m.PortalTo == p.PortalTo && m.TeleportTo == p.TeleportTo && m.Boss == p.Boss
  {
    PortalMsgpack(p.Base, p.PortalTo, p.TeleportTo, p.Boss)
  }

  lemma MsgpackIgnoresImage(p: Portal, img: Object.Image)
    ensures ToMsgpack(p.(Image := img)) == ToMsgpack(p)
  {
  }
}
