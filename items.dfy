/** Collectible items: the level's goals and the things NPCs and arcades hand out. */
module Items {
  import opened Geometry
  import opened Wrappers
  import Object

  datatype Item = Item(
    Base: Object.Base,
    Image: Object.Image,
    Name: string,
    Important: bool,
    Collected: bool)
  {
    function Type(): Object.Type { Object.Item }

    function Rectangle(): Rectangle { Base.Rectangle() }
  }

  /** `item.New`: an uncollected item with the given placement, name and importance. */
  function New(origin: Point, width: real, height: real, img: Object.Image, name: string, important: bool): (it: Item)
    ensures it.Base == Object.Base(origin, width, height) && it.Image == img
    ensures it.Name == name && it.Important == important && !it.Collected
    ensures it.Type() == Object.Item
  {
    Item(Object.Base(origin, width, height), img, name, important, false)
  }

  /** The JSON object of an item: exactly `name`, `important` and `collected`. */
  datatype ItemJson = ItemJson(name: string, important: bool, collected: bool)

  /** A decoded JSON object: a key that is absent leaves the field as it was. */
  datatype ItemJsonPatch = ItemJsonPatch(name: Option<string>, important: Option<bool>, collected: Option<bool>)

  /** The MessagePack form: every field but the image. */
  datatype ItemMsgpack = ItemMsgpack(Base: Object.Base, Name: string, Important: bool, Collected: bool)

  function ToJson(it: Item): (j: ItemJson)
    ensures j.name == it.Name && j.important == it.Important && j.collected == it.Collected
  {
    ItemJson(it.Name, it.Important, it.Collected)
  }

  /** The patch a complete JSON object decodes to. */
  function Complete(j: ItemJson): ItemJsonPatch {
    ItemJsonPatch(Some(j.name), Some(j.important), Some(j.collected))
  }

  /** Decoding a JSON object into an existing item: the base and the image are kept. */
  function ApplyJson(it: Item, p: ItemJsonPatch): (r: Item)
    ensures r.Base == it.Base && r.Image == it.Image
    ensures r.Name == p.name.GetOr(it.Name)
    ensures r.Important == p.important.GetOr(it.Important)
    ensures r.Collected == p.collected.GetOr(it.Collected)
  {
    it.(Name := p.name.GetOr(it.Name),
        Important := p.important.GetOr(it.Important),
        Collected := p.collected.GetOr(it.Collected))
  }

  function ToMsgpack(it: Item): (m: ItemMsgpack)
    ensures m.Base == it.Base && m.Name == it.Name
    ensures m.Important == it.Important && m.Collected == it.Collected
  {
    ItemMsgpack(it.Base, it.Name, it.Important, it.Collected)
  }

  /** The JSON form does not see the base or the image; MessagePack sees everything but the image. */
  lemma SerialisedFields(it: Item, b: Object.Base, img: Object.Image)
    ensures ToJson(it.(Base := b, Image := img)) == ToJson(it)
    ensures ToMsgpack(it.(Image := img)) == ToMsgpack(it)
    ensures ToMsgpack(it.(Base := b)) == ToMsgpack(it) <==> b == it.Base
  {
  }

  /** Decoding an item's own JSON into it changes nothing. */
  lemma JsonRoundTrip(it: Item)
    ensures ApplyJson(it, Complete(ToJson(it))) == it
  {
  }

  /** Decoding another item's JSON copies exactly the three JSON fields. */
  lemma JsonTransfers(it: Item, other: Item)
    ensures ToJson(ApplyJson(it, Complete(ToJson(other)))) == ToJson(other)
    ensures ApplyJson(it, Complete(ToJson(other))).Base == it.Base
  {
  }
}
