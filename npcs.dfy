/** Non-player characters that hold a dialog and hand out an item. */
module Npcs {
  import opened Geometry
  import opened Wrappers
  import Object

  /**
   * `LinkedItem` is the index in the engine's item list of the item named
   * `ReturnsItem`, set when the engine is built. The dialog itself lives in
   * the engine, indexed like the NPC.
   */
  datatype Npc = Npc(
    Base: Object.Base,
    Image: Object.Image,
    DialogImage: Object.Image,
    ReturnsItem: string,
    LinkedItem: Option<nat>)
  {
    function Type(): Object.Type { Object.NPC }

    function Rectangle(): Rectangle { Base.Rectangle() }
  }

  /** `npc.New`: stores the item name and leaves the item unlinked. */
  function New(origin: Point, img: Object.Image, dialogImage: Object.Image,
               width: real, height: real, item: string): (n: Npc)
    ensures n.Base == Object.Base(origin, width, height)
    ensures n.Image == img && n.DialogImage == dialogImage
    ensures n.ReturnsItem == item && n.LinkedItem.None?
    ensures n.Type() == Object.NPC
  {
    Npc(Object.Base(origin, width, height), img, dialogImage, item, None)
  }

  /** The MessagePack form: the base and the item name only. */
  datatype NpcMsgpack = NpcMsgpack(Base: Object.Base, ReturnsItem: string)

  function ToMsgpack(n: Npc): (m: NpcMsgpack)
    ensures m.Base == n.Base && m.ReturnsItem == n.ReturnsItem
  {
    NpcMsgpack(n.Base, n.ReturnsItem)
  }

  lemma MsgpackExclusions(n: Npc, img: Object.Image, dimg: Object.Image, link: Option<nat>)
    ensures ToMsgpack(n.(Image := img, DialogImage := dimg, LinkedItem := link)) == ToMsgpack(n)
  {
  }
}
