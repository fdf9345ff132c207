/** Arcade machines placed in a level; each provides an item. */
module Machines {
  import opened Geometry
  import opened Wrappers
  import Object

  /** `LinkedItem` is the index of the item named `ProvidesItem`; the game back-end is left out. */
  datatype Machine = Machine(
    Base: Object.Base,
    Image: Object.Image,
    ProvidesItem: string,
    LinkedItem: Option<nat>)
  {
    /** A machine reports the `Arcade` tag, not `ArcadeMachine`. */
    function Type(): (t: Object.Type)
      ensures t == Object.Arcade && t != Object.ArcadeMachine
    {
      Object.Arcade
    }

    function Rectangle(): Rectangle { Base.Rectangle() }
  }

  /** `arcade.New`: stores the item name and leaves the item unlinked. */
  function New(origin: Point, img: Object.Image, width: real, height: real, item: string): (m: Machine)
    ensures m.Base == Object.Base(origin, width, height) && m.Image == img
    ensures m.ProvidesItem == item && m.LinkedItem.None?
  {
    Machine(Object.Base(origin, width, height), img, item, None)
  }

  /** The MessagePack form: the base and the item name only. */
  datatype MachineMsgpack = MachineMsgpack(Base: Object.Base, ProvidesItem: string)

  function ToMsgpack(m: Machine): (r: MachineMsgpack)
    ensures r.Base == m.Base && r.ProvidesItem == m.ProvidesItem
  {
    MachineMsgpack(m.Base, m.ProvidesItem)
  }

  lemma MsgpackExclusions(m: Machine, img: Object.Image, link: Option<nat>)
    ensures ToMsgpack(m.(Image := img, LinkedItem := link)) == ToMsgpack(m)
  {
  }
}
