/**
 * Everything the engine keeps about a running level, and the collision
 * query over it. A collision result names an entity by its layer and its
 * position in that layer; the source returns the entity itself.
 */
module Worlds {
  import opened Geometry
  import opened Wrappers
  import Object
  import Tiles
  import Items
  import Portals
  import Damage
  import Npcs
  import Machines
  import Players
  import Dialogs

  /** The dialog input line, its scroll position and whether it is shown masked. */
  datatype DialogControl = DialogControl(InputBuffer: seq<char>, Scroll: int, MaskInput: bool)

  datatype World = World(
    Tiles: seq<Tiles.StaticTile>,
    BackgroundImages: seq<Tiles.BackgroundImage>,
    Player: Players.PlayerState,
    Items: seq<Items.Item>,
    Portals: seq<Portals.Portal>,
    Spikes: seq<Damage.Spike>,
    InvWalls: seq<Tiles.InvWall>,
    NPCs: seq<Npcs.Npc>,
    Arcades: seq<Machines.Machine>,
    EnemyBullets: seq<Damage.Bullet>,
    /** The state of each NPC's dialog, by NPC position. */
    Dialogs: seq<Dialogs.State>,
    Spawn: Point,
    ActiveNPC: Option<nat>,
    Control: DialogControl,
    Paused: bool,
    Tick: int,
    Level: string,
    IsWin: bool)

  /**
   * What construction guarantees and every tick keeps: each NPC is linked to
   * an item, each has a dialog, and the active NPC exists.
   */
  predicate Valid(w: World) {
    (forall n :: 0 <= n < |w.NPCs| ==> w.NPCs[n].LinkedItem.Some? && w.NPCs[n].LinkedItem.value < |w.Items|) &&
    |w.Dialogs| == |w.NPCs| &&
    (w.ActiveNPC.Some? ==> w.ActiveNPC.value < |w.NPCs|)
  }

  // ---- Collision query ------------------------------------------------------

  /** A collision result: the layer's type tag and the position in that layer. */
  datatype Hit = Hit(Kind: Object.Type, Index: nat)

  /** Hit positions strictly increase. */
  predicate Ascending(hs: seq<Hit>) {
    forall i, j :: 0 <= i < j < |hs| ==> hs[i].Index < hs[j].Index
  }

  /** `collideGeneric` on one layer: the positions of the rectangles that intersect `r`, in order. */
  function LayerHits(kind: Object.Type, rects: seq<Rectangle>, r: Rectangle): seq<Hit>
    decreases |rects|
  {
    if rects == [] then []
    else
      var n := |rects| - 1;
      LayerHits(kind, rects[..n], r) + (if rects[n].Intersects(r) then [Hit(kind, n)] else [])
  }

  /** A layer's hits are exactly its rectangles that intersect the query, in ascending order. */
  lemma {:induction false} LayerHitsSpec(kind: Object.Type, rects: seq<Rectangle>, r: Rectangle)
    ensures var hs := LayerHits(kind, rects, r);
            (forall h :: h in hs ==> h.Kind == kind && h.Index < |rects| && rects[h.Index].Intersects(r)) &&
            (forall i :: 0 <= i < |rects| && rects[i].Intersects(r) ==> Hit(kind, i) in hs) &&
            Ascending(hs)
    decreases |rects|
  {
    if rects != [] {
      var n := |rects| - 1;
      var p := LayerHits(kind, rects[..n], r);
      LayerHitsSpec(kind, rects[..n], r);
      assert forall i :: 0 <= i < n ==> rects[..n][i] == rects[i];
      var hs := LayerHits(kind, rects, r);
      assert hs == p + (if rects[n].Intersects(r) then [Hit(kind, n)] else []);
      forall h | h in hs ensures h.Kind == kind && h.Index < |rects| && rects[h.Index].Intersects(r) {
        if h !in p {
          assert h == Hit(kind, n);
        }
      }
      forall i | 0 <= i < |rects| && rects[i].Intersects(r) ensures Hit(kind, i) in hs {
        if i < n {
          assert Hit(kind, i) in p;
        }
      }
      forall a, b | 0 <= a < b < |hs| ensures hs[a].Index < hs[b].Index {
        if b >= |p| {
          assert hs[a] in p;
        }
      }
    }
  }

  lemma LayerMember(kind: Object.Type, rects: seq<Rectangle>, r: Rectangle, h: Hit)
    requires h in LayerHits(kind, rects, r)
    ensures h.Kind == kind && h.Index < |rects| && rects[h.Index].Intersects(r)
  {
    LayerHitsSpec(kind, rects, r);
  }

  lemma LayerOfKind(kind: Object.Type, rects: seq<Rectangle>, r: Rectangle)
    ensures OfKind(LayerHits(kind, rects, r), kind)
  {
    LayerHitsSpec(kind, rects, r);
  }

  /** Every layer of a query holds hits of its own kind only, in ascending order. */
  lemma LayersOfKind(w: World, r: Rectangle)
    ensures OfKind(LayerHits(Object.BackgroundImage, BackgroundRects(w), r), Object.BackgroundImage)
    ensures OfKind(LayerHits(Object.StaticTile, TileRects(w), r), Object.StaticTile)
    ensures OfKind(LayerHits(Object.Item, ItemRects(w), r), Object.Item)
    ensures OfKind(LayerHits(Object.Portal, PortalRects(w), r), Object.Portal)
    ensures OfKind(LayerHits(Object.Spike, SpikeRects(w), r), Object.Spike)
    ensures OfKind(LayerHits(Object.NPC, NpcRects(w), r), Object.NPC)
    ensures OfKind(LayerHits(Object.Arcade, ArcadeRects(w), r), Object.Arcade)
    ensures OfKind(LayerHits(Object.Player, [w.Player.Rectangle()], r), Object.Player)
    ensures OfKind(LayerHits(Object.EnemyBullet, BulletRects(w), r), Object.EnemyBullet)
  {
    LayerOfKind(Object.BackgroundImage, BackgroundRects(w), r);
    LayerOfKind(Object.StaticTile, TileRects(w), r);
    LayerOfKind(Object.Item, ItemRects(w), r);
    LayerOfKind(Object.Portal, PortalRects(w), r);
    LayerOfKind(Object.Spike, SpikeRects(w), r);
    LayerOfKind(Object.NPC, NpcRects(w), r);
    LayerOfKind(Object.Arcade, ArcadeRects(w), r);
    LayerOfKind(Object.Player, [w.Player.Rectangle()], r);
    LayerOfKind(Object.EnemyBullet, BulletRects(w), r);
  }

  function TileRects(w: World): (rs: seq<Rectangle>)
    ensures |rs| == |w.Tiles| && forall i :: 0 <= i < |rs| ==> rs[i] == w.Tiles[i].Rectangle()
  {
    seq(|w.Tiles|, i requires 0 <= i < |w.Tiles| => w.Tiles[i].Rectangle())
  }

  function BackgroundRects(w: World): (rs: seq<Rectangle>)
    ensures |rs| == |w.BackgroundImages| && forall i :: 0 <= i < |rs| ==> rs[i] == w.BackgroundImages[i].Rectangle()
  {
    seq(|w.BackgroundImages|, i requires 0 <= i < |w.BackgroundImages| => w.BackgroundImages[i].Rectangle())
  }

  function ItemRects(w: World): (rs: seq<Rectangle>)
    ensures |rs| == |w.Items| && forall i :: 0 <= i < |rs| ==> rs[i] == w.Items[i].Rectangle()
  {
    seq(|w.Items|, i requires 0 <= i < |w.Items| => w.Items[i].Rectangle())
  }

  function PortalRects(w: World): (rs: seq<Rectangle>)
    ensures |rs| == |w.Portals| && forall i :: 0 <= i < |rs| ==> rs[i] == w.Portals[i].Rectangle()
  {
    seq(|w.Portals|, i requires 0 <= i < |w.Portals| => w.Portals[i].Rectangle())
  }

  function SpikeRects(w: World): (rs: seq<Rectangle>)
    ensures |rs| == |w.Spikes| && forall i :: 0 <= i < |rs| ==> rs[i] == w.Spikes[i].Rectangle()
  {
    seq(|w.Spikes|, i requires 0 <= i < |w.Spikes| => w.Spikes[i].Rectangle())
  }

  function NpcRects(w: World): (rs: seq<Rectangle>)
    ensures |rs| == |w.NPCs| && forall i :: 0 <= i < |rs| ==> rs[i] == w.NPCs[i].Rectangle()
  {
    seq(|w.NPCs|, i requires 0 <= i < |w.NPCs| => w.NPCs[i].Rectangle())
  }

  function ArcadeRects(w: World): (rs: seq<Rectangle>)
    ensures |rs| == |w.Arcades| && forall i :: 0 <= i < |rs| ==> rs[i] == w.Arcades[i].Rectangle()
  {
    seq(|w.Arcades|, i requires 0 <= i < |w.Arcades| => w.Arcades[i].Rectangle())
  }

  function BulletRects(w: World): (rs: seq<Rectangle>)
    ensures |rs| == |w.EnemyBullets| && forall i :: 0 <= i < |rs| ==> rs[i] == w.EnemyBullets[i].Rectangle()
  {
    seq(|w.EnemyBullets|, i requires 0 <= i < |w.EnemyBullets| => w.EnemyBullets[i].Rectangle())
  }

  /**
   * `Collisions`: the layers in drawing order — backgrounds, tiles, items,
   * portals, spikes, NPCs, arcades, the player, enemy bullets. Invisible
   * walls are not scanned.
   */
  function Hits(w: World, r: Rectangle): seq<Hit> {
    LayerHits(Object.BackgroundImage, BackgroundRects(w), r) +
    LayerHits(Object.StaticTile, TileRects(w), r) +
    LayerHits(Object.Item, ItemRects(w), r) +
    LayerHits(Object.Portal, PortalRects(w), r) +
    LayerHits(Object.Spike, SpikeRects(w), r) +
    LayerHits(Object.NPC, NpcRects(w), r) +
    LayerHits(Object.Arcade, ArcadeRects(w), r) +
    LayerHits(Object.Player, [w.Player.Rectangle()], r) +
    LayerHits(Object.EnemyBullet, BulletRects(w), r)
  }

  /** The position in the layer of the drawing order `Hits` scans. */
  function Layer(k: Object.Type): nat {
    match k
    case BackgroundImage => 0
    case StaticTile => 1
    case Item => 2
    case Portal => 3
    case Spike => 4
    case NPC => 5
    case Arcade => 6
    case Player => 7
    case EnemyBullet => 8
    case ArcadeMachine => 9
    case InvWall => 10
  }

  /** The rectangle of the entity a hit names, if the hit names one. */
  function HitRect(w: World, h: Hit): Option<Rectangle> {
    match h.Kind
    case BackgroundImage => if h.Index < |w.BackgroundImages| then Some(w.BackgroundImages[h.Index].Rectangle()) else None
    case StaticTile => if h.Index < |w.Tiles| then Some(w.Tiles[h.Index].Rectangle()) else None
    case Item => if h.Index < |w.Items| then Some(w.Items[h.Index].Rectangle()) else None
    case Portal => if h.Index < |w.Portals| then Some(w.Portals[h.Index].Rectangle()) else None
    case Spike => if h.Index < |w.Spikes| then Some(w.Spikes[h.Index].Rectangle()) else None
    case NPC => if h.Index < |w.NPCs| then Some(w.NPCs[h.Index].Rectangle()) else None
    case Arcade => if h.Index < |w.Arcades| then Some(w.Arcades[h.Index].Rectangle()) else None
    case Player => if h.Index == 0 then Some(w.Player.Rectangle()) else None
    case EnemyBullet => if h.Index < |w.EnemyBullets| then Some(w.EnemyBullets[h.Index].Rectangle()) else None
    case ArcadeMachine => None
    case InvWall => if h.Index < |w.InvWalls| then Some(w.InvWalls[h.Index].Rectangle()) else None
  }

  /** Every hit names an entity of a scanned layer that intersects the query. */
  lemma HitsSound(w: World, r: Rectangle, h: Hit)
    requires h in Hits(w, r)
    ensures HitRect(w, h).Some? && HitRect(w, h).value.Intersects(r)
    ensures h.Kind != Object.InvWall && h.Kind != Object.ArcadeMachine
  {
    LayersOfKind(w, r);
    InLayers(LayerHits(Object.BackgroundImage, BackgroundRects(w), r),
             LayerHits(Object.StaticTile, TileRects(w), r),
             LayerHits(Object.Item, ItemRects(w), r),
             LayerHits(Object.Portal, PortalRects(w), r),
             LayerHits(Object.Spike, SpikeRects(w), r),
             LayerHits(Object.NPC, NpcRects(w), r),
             LayerHits(Object.Arcade, ArcadeRects(w), r),
             LayerHits(Object.Player, [w.Player.Rectangle()], r),
             LayerHits(Object.EnemyBullet, BulletRects(w), r), h);
    match h.Kind
    case BackgroundImage => LayerMember(Object.BackgroundImage, BackgroundRects(w), r, h);
    case StaticTile => LayerMember(Object.StaticTile, TileRects(w), r, h);
    case Item => LayerMember(Object.Item, ItemRects(w), r, h);
    case Portal => LayerMember(Object.Portal, PortalRects(w), r, h);
    case Spike => LayerMember(Object.Spike, SpikeRects(w), r, h);
    case NPC => LayerMember(Object.NPC, NpcRects(w), r, h);
    case Arcade => LayerMember(Object.Arcade, ArcadeRects(w), r, h);
    case Player => LayerMember(Object.Player, [w.Player.Rectangle()], r, h);
    case EnemyBullet => LayerMember(Object.EnemyBullet, BulletRects(w), r, h);
  }

  /** A hit of nine layers, each of one kind, lies in the layer of its kind. */
  lemma InLayers(l0: seq<Hit>, l1: seq<Hit>, l2: seq<Hit>, l3: seq<Hit>, l4: seq<Hit>,
                 l5: seq<Hit>, l6: seq<Hit>, l7: seq<Hit>, l8: seq<Hit>, h: Hit)
    requires OfKind(l0, Object.BackgroundImage) && OfKind(l1, Object.StaticTile) && OfKind(l2, Object.Item)
    requires OfKind(l3, Object.Portal) && OfKind(l4, Object.Spike) && OfKind(l5, Object.NPC)
    requires OfKind(l6, Object.Arcade) && OfKind(l7, Object.Player) && OfKind(l8, Object.EnemyBullet)
    requires h in l0 + l1 + l2 + l3 + l4 + l5 + l6 + l7 + l8
    ensures h.Kind != Object.InvWall && h.Kind != Object.ArcadeMachine
    ensures (h.Kind == Object.BackgroundImage ==> h in l0) && (h.Kind == Object.StaticTile ==> h in l1) &&
            (h.Kind == Object.Item ==> h in l2) && (h.Kind == Object.Portal ==> h in l3) &&
            (h.Kind == Object.Spike ==> h in l4) && (h.Kind == Object.NPC ==> h in l5) &&
            (h.Kind == Object.Arcade ==> h in l6) && (h.Kind == Object.Player ==> h in l7) &&
            (h.Kind == Object.EnemyBullet ==> h in l8)
  {
  }

  /** Every entity of a scanned layer that intersects the query is hit. */
  lemma HitsComplete(w: World, r: Rectangle, h: Hit)
    requires h.Kind != Object.InvWall && h.Kind != Object.ArcadeMachine
    requires HitRect(w, h).Some? && HitRect(w, h).value.Intersects(r)
    ensures h in Hits(w, r)
  {
    match h.Kind
    case BackgroundImage =>
      LayerHitsSpec(Object.BackgroundImage, BackgroundRects(w), r);
      assert h in LayerHits(Object.BackgroundImage, BackgroundRects(w), r);
    case StaticTile =>
      LayerHitsSpec(Object.StaticTile, TileRects(w), r);
      assert h in LayerHits(Object.StaticTile, TileRects(w), r);
    case Item =>
      LayerHitsSpec(Object.Item, ItemRects(w), r);
      assert h in LayerHits(Object.Item, ItemRects(w), r);
    case Portal =>
      LayerHitsSpec(Object.Portal, PortalRects(w), r);
      assert h in LayerHits(Object.Portal, PortalRects(w), r);
    case Spike =>
      LayerHitsSpec(Object.Spike, SpikeRects(w), r);
      assert h in LayerHits(Object.Spike, SpikeRects(w), r);
    case NPC =>
      LayerHitsSpec(Object.NPC, NpcRects(w), r);
      assert h in LayerHits(Object.NPC, NpcRects(w), r);
    case Arcade =>
      LayerHitsSpec(Object.Arcade, ArcadeRects(w), r);
      assert h in LayerHits(Object.Arcade, ArcadeRects(w), r);
    case Player =>
      LayerHitsSpec(Object.Player, [w.Player.Rectangle()], r);
      assert h in LayerHits(Object.Player, [w.Player.Rectangle()], r);
    case EnemyBullet =>
      LayerHitsSpec(Object.EnemyBullet, BulletRects(w), r);
      assert h in LayerHits(Object.EnemyBullet, BulletRects(w), r);
  }

  /** Hits come layer by layer in drawing order, and in ascending position within a layer. */
  predicate InDrawingOrder(hs: seq<Hit>) {
    forall i, j :: 0 <= i < j < |hs| ==>
      Layer(hs[i].Kind) < Layer(hs[j].Kind) || (hs[i].Kind == hs[j].Kind && hs[i].Index < hs[j].Index)
  }

  /** The results of `Collisions` are in drawing order. */
  lemma HitsOrdered(w: World, r: Rectangle)
    ensures InDrawingOrder(Hits(w, r))
  {
    LayersOfKind(w, r);
    var l0 := LayerHits(Object.BackgroundImage, BackgroundRects(w), r);
    var l1 := LayerHits(Object.StaticTile, TileRects(w), r);
    var l2 := LayerHits(Object.Item, ItemRects(w), r);
    var l3 := LayerHits(Object.Portal, PortalRects(w), r);
    var l4 := LayerHits(Object.Spike, SpikeRects(w), r);
    var l5 := LayerHits(Object.NPC, NpcRects(w), r);
    var l6 := LayerHits(Object.Arcade, ArcadeRects(w), r);
    var l7 := LayerHits(Object.Player, [w.Player.Rectangle()], r);
    var l8 := LayerHits(Object.EnemyBullet, BulletRects(w), r);
    OrderedLayers(l0, l1, l2, l3, l4, l5, l6, l7, l8);
  }

  predicate OfKind(hs: seq<Hit>, kind: Object.Type) {
    Ascending(hs) && forall h :: h in hs ==> h.Kind == kind
  }

  lemma OrderedLayers(l0: seq<Hit>, l1: seq<Hit>, l2: seq<Hit>, l3: seq<Hit>, l4: seq<Hit>,
                      l5: seq<Hit>, l6: seq<Hit>, l7: seq<Hit>, l8: seq<Hit>)
    requires OfKind(l0, Object.BackgroundImage) && OfKind(l1, Object.StaticTile) && OfKind(l2, Object.Item)
    requires OfKind(l3, Object.Portal) && OfKind(l4, Object.Spike) && OfKind(l5, Object.NPC)
    requires OfKind(l6, Object.Arcade) && OfKind(l7, Object.Player) && OfKind(l8, Object.EnemyBullet)
    ensures InDrawingOrder(l0 + l1 + l2 + l3 + l4 + l5 + l6 + l7 + l8)
  {
    var p0: seq<Hit> := [];
    assert p0 + l0 == l0;
    OrderedAppend(p0, l0, Object.BackgroundImage);
    OrderedAppend(l0, l1, Object.StaticTile);
    var p1 := l0 + l1;
    OrderedAppend(p1, l2, Object.Item);
    var p2 := p1 + l2;
    OrderedAppend(p2, l3, Object.Portal);
    var p3 := p2 + l3;
    OrderedAppend(p3, l4, Object.Spike);
    var p4 := p3 + l4;
    OrderedAppend(p4, l5, Object.NPC);
    var p5 := p4 + l5;
    OrderedAppend(p5, l6, Object.Arcade);
    var p6 := p5 + l6;
    OrderedAppend(p6, l7, Object.Player);
    var p7 := p6 + l7;
    OrderedAppend(p7, l8, Object.EnemyBullet);
  }

  /** Appending a later layer, in ascending order, keeps the drawing order. */
  lemma OrderedAppend(a: seq<Hit>, b: seq<Hit>, kind: Object.Type)
    requires InDrawingOrder(a) && OfKind(b, kind)
    requires forall h :: h in a ==> Layer(h.Kind) < Layer(kind)
    ensures InDrawingOrder(a + b)
    ensures forall h :: h in a + b ==> Layer(h.Kind) <= Layer(kind)
  {
    var s := a + b;
    forall i, j | 0 <= i < j < |s|
      ensures Layer(s[i].Kind) < Layer(s[j].Kind) || (s[i].Kind == s[j].Kind && s[i].Index < s[j].Index)
    {
      if j < |a| {
        assert s[i] == a[i] && s[j] == a[j];
      } else if i >= |a| {
        assert s[i] == b[i - |a|] && s[j] == b[j - |a|];
        assert s[i] in b && s[j] in b;
      } else {
        assert s[i] == a[i] && a[i] in a;
        assert s[j] == b[j - |a|] && s[j] in b;
      }
    }
  }

  /** Only the tiles decide whether a rectangle hits a tile. */
  predicate HitsTile(tiles: seq<Tiles.StaticTile>, r: Rectangle) {
    exists i | 0 <= i < |tiles| :: tiles[i].Rectangle().Intersects(r)
  }

  /** The results contain a static tile exactly when some tile intersects the query. */
  lemma TileHitIff(w: World, r: Rectangle)
    ensures (exists h :: h in Hits(w, r) && h.Kind == Object.StaticTile) <==> HitsTile(w.Tiles, r)
  {
    if HitsTile(w.Tiles, r) {
      var i :| 0 <= i < |w.Tiles| && w.Tiles[i].Rectangle().Intersects(r);
      HitsComplete(w, r, Hit(Object.StaticTile, i));
    }
    if h :| h in Hits(w, r) && h.Kind == Object.StaticTile {
      HitsSound(w, r, h);
    }
  }

  // ---- Folding over collision results --------------------------------------

  /** Applies `step` to each hit in order, as the engine's `range` loops over a collision result do. */
  function Fold(w: World, hs: seq<Hit>, step: (World, Hit) -> World): World
    decreases |hs|
  {
    if hs == [] then w else step(Fold(w, hs[..|hs| - 1], step), hs[|hs| - 1])
  }

  lemma {:induction false} FoldAppend(w: World, a: seq<Hit>, b: seq<Hit>, step: (World, Hit) -> World)
    ensures Fold(w, a + b, step) == Fold(Fold(w, a, step), b, step)
    decreases |b|
  {
    if b == [] {
      assert a + b == a;
    } else {
      var n := |b| - 1;
      assert (a + b)[..|a + b| - 1] == a + b[..n];
      FoldAppend(w, a, b[..n], step);
    }
  }

  /** A step that ignores hits outside one layer makes the fold ignore them too. */
  lemma {:induction false} FoldIgnores(w: World, hs: seq<Hit>, step: (World, Hit) -> World, kind: Object.Type)
    requires forall h :: h in hs ==> h.Kind != kind
    requires forall v: World, h: Hit :: h.Kind != kind ==> step(v, h) == v
    ensures Fold(w, hs, step) == w
    decreases |hs|
  {
    if hs != [] {
      FoldIgnores(w, hs[..|hs| - 1], step, kind);
    }
  }
}
