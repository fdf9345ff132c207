/**
 * The per-tick steps of the engine as functions of the world: player input,
 * alignment against tiles, portals, spikes, enemy bullets, item pickup and
 * the NPC in reach. Each step that loops over a collision result is a fold
 * over that result, and each comes with a reference description of its
 * effect that does not mention collision results.
 */
module Steps {
  import opened Geometry
  import opened Wrappers
  import Object
  import Items
  import Damage
  import Portals
  import Tiles
  import Players
  import Physics
  import K = Input
  import opened Worlds

  /** Vertical speed of a jump (`-5 * 2`). */
  const JumpSpeed: real := -10.0

  /** Horizontal walking speed (`2.5 * 2`). */
  const WalkSpeed: real := 5.0

  /** How far around the player an NPC can be talked to. */
  const NpcReach: real := 40.0

  function PlayerRect(w: World): Rectangle {
    w.Player.Rectangle()
  }

  function MovePlayer(w: World, d: Vector): (v: World)
    ensures v.Player.Base.Origin == w.Player.Base.Origin.Add(d)
    ensures v == w.(Player := w.Player.(Base := v.Player.Base))
  {
    w.(Player := w.Player.(Base := w.Player.Base.Move(d)))
  }

  // ---- Input ----------------------------------------------------------------

  /**
   * `ProcessPlayerInput`: gravity only in the air, a jump while the coyote
   * flag is set, A before D for walking, then speed plus acceleration.
   */
  function ProcessPlayerInput(w: World, inp: K.Input): World {
    var p := w.Player;
    var acc := p.Acceleration.(Y := if p.Ground.OnGround then 0.0 else Physics.GravityAcceleration);
    var jump := (inp.IsKeyPressed(K.Space) || inp.IsKeyPressed(K.W)) && p.Ground.Coyote;
    var speedY := if jump then JumpSpeed else p.Speed.Y;
    var ground := if jump then p.Ground.ResetCoyote() else p.Ground;
    var speedX := if inp.IsKeyPressed(K.A) then -WalkSpeed else if inp.IsKeyPressed(K.D) then WalkSpeed else 0.0;
    var right := if inp.IsKeyPressed(K.A) then false else if inp.IsKeyPressed(K.D) then true else p.LooksRight;
    var speed := Physics.Accelerated(Vector(speedX, speedY), acc);
    w.(Player := p.(Acceleration := acc, Speed := speed, Ground := ground, LooksRight := right))
  }

  /** What the input step decides, stated per key. */
  lemma InputEffects(w: World, inp: K.Input)
    ensures var p, q := w.Player, ProcessPlayerInput(w, inp).Player;
            var jump := (inp.IsKeyPressed(K.Space) || inp.IsKeyPressed(K.W)) && p.Ground.Coyote;
            (q.Acceleration.Y == 0.0 <==> p.Ground.OnGround) &&
            q.Acceleration.X == p.Acceleration.X &&
            (inp.IsKeyPressed(K.A) ==> q.Speed.X == -5.0 + p.Acceleration.X && !q.LooksRight) &&
            (!inp.IsKeyPressed(K.A) && inp.IsKeyPressed(K.D) ==> q.Speed.X == 5.0 + p.Acceleration.X && q.LooksRight) &&
            (!inp.IsKeyPressed(K.A) && !inp.IsKeyPressed(K.D) ==> q.Speed.X == p.Acceleration.X && q.LooksRight == p.LooksRight) &&
            (jump ==> q.Speed.Y == -10.0 + q.Acceleration.Y && !q.Ground.Coyote) &&
            (!jump ==> q.Speed.Y == p.Speed.Y + q.Acceleration.Y && q.Ground == p.Ground) &&
            q.Base == p.Base && q.Health == p.Health && q.Inventory == p.Inventory
  {
    Physics.GravityIsOneThird();
  }

  // ---- First hit of some kinds ---------------------------------------------

  /** The first hit whose kind is in `ks`. */
  function First(hs: seq<Hit>, ks: set<Object.Type>): (r: Option<Hit>)
    ensures r.Some? ==> r.value in hs && r.value.Kind in ks
    ensures r.None? <==> forall h :: h in hs ==> h.Kind !in ks
    decreases |hs|
  {
    if hs == [] then None
    else if hs[0].Kind in ks then Some(hs[0])
    else
      assert forall h :: h in hs[1..] ==> h in hs;
      First(hs[1..], ks)
  }

  lemma {:induction false} FirstAppend(a: seq<Hit>, b: seq<Hit>, ks: set<Object.Type>)
    ensures First(a + b, ks) == if First(a, ks).Some? then First(a, ks) else First(b, ks)
    decreases |a|
  {
    if a == [] {
      assert a + b == b;
    } else {
      assert (a + b)[0] == a[0];
      assert (a + b)[1..] == a[1..] + b;
      FirstAppend(a[1..], b, ks);
    }
  }

  lemma FirstSkipsRight(a: seq<Hit>, b: seq<Hit>, ks: set<Object.Type>)
    requires First(b, ks).None?
    ensures First(a + b, ks) == First(a, ks)
  {
    FirstAppend(a, b, ks);
  }

  lemma FirstSkipsLeft(a: seq<Hit>, b: seq<Hit>, ks: set<Object.Type>)
    requires First(a, ks).None?
    ensures First(a + b, ks) == First(b, ks)
  {
    FirstAppend(a, b, ks);
  }

  /** When only the tile layer has hits of kinds `ks`, the first of them comes from that layer. */
  lemma FirstOfSecondLayer(l0: seq<Hit>, l1: seq<Hit>, l2: seq<Hit>, l3: seq<Hit>, l4: seq<Hit>,
                           l5: seq<Hit>, l6: seq<Hit>, l7: seq<Hit>, l8: seq<Hit>, ks: set<Object.Type>)
    requires First(l0, ks).None? && First(l2, ks).None? && First(l3, ks).None? && First(l4, ks).None?
    requires First(l5, ks).None? && First(l6, ks).None? && First(l7, ks).None? && First(l8, ks).None?
    ensures First(l0 + l1 + l2 + l3 + l4 + l5 + l6 + l7 + l8, ks) == First(l1, ks)
  {
    var p1 := l0 + l1;
    FirstSkipsLeft(l0, l1, ks);
    var p2 := p1 + l2;
    FirstSkipsRight(p1, l2, ks);
    var p3 := p2 + l3;
    FirstSkipsRight(p2, l3, ks);
    var p4 := p3 + l4;
    FirstSkipsRight(p3, l4, ks);
    var p5 := p4 + l5;
    FirstSkipsRight(p4, l5, ks);
    var p6 := p5 + l6;
    FirstSkipsRight(p5, l6, ks);
    var p7 := p6 + l7;
    FirstSkipsRight(p6, l7, ks);
    FirstSkipsRight(p7, l8, ks);
  }

  /** When only the NPC layer has hits of kinds `ks`, the first of them comes from that layer. */
  lemma FirstOfSixthLayer(l0: seq<Hit>, l1: seq<Hit>, l2: seq<Hit>, l3: seq<Hit>, l4: seq<Hit>,
                          l5: seq<Hit>, l6: seq<Hit>, l7: seq<Hit>, l8: seq<Hit>, ks: set<Object.Type>)
    requires First(l0, ks).None? && First(l1, ks).None? && First(l2, ks).None? && First(l3, ks).None?
    requires First(l4, ks).None? && First(l6, ks).None? && First(l7, ks).None? && First(l8, ks).None?
    ensures First(l0 + l1 + l2 + l3 + l4 + l5 + l6 + l7 + l8, ks) == First(l5, ks)
  {
    var p1 := l0 + l1;
    FirstSkipsLeft(l0, l1, ks);
    var p2 := p1 + l2;
    FirstSkipsLeft(p1, l2, ks);
    var p3 := p2 + l3;
    FirstSkipsLeft(p2, l3, ks);
    var p4 := p3 + l4;
    FirstSkipsLeft(p3, l4, ks);
    var p5 := p4 + l5;
    FirstSkipsLeft(p4, l5, ks);
    var p6 := p5 + l6;
    FirstSkipsRight(p5, l6, ks);
    var p7 := p6 + l7;
    FirstSkipsRight(p6, l7, ks);
    FirstSkipsRight(p7, l8, ks);
  }

  /** A layer of a kind outside `ks` has no first hit. */
  lemma FirstOfOtherLayer(kind: Object.Type, rects: seq<Rectangle>, r: Rectangle, ks: set<Object.Type>)
    requires kind !in ks
    ensures First(LayerHits(kind, rects, r), ks).None?
  {
    LayerHitsSpec(kind, rects, r);
  }

  /** The first hit of one layer is the lowest position in it that intersects the query. */
  lemma FirstOfLayer(kind: Object.Type, rects: seq<Rectangle>, r: Rectangle, ks: set<Object.Type>)
    requires kind in ks
    ensures var f := First(LayerHits(kind, rects, r), ks);
            (f.None? <==> forall i :: 0 <= i < |rects| ==> !rects[i].Intersects(r)) &&
            (f.Some? ==> f.value.Kind == kind && f.value.Index < |rects| && rects[f.value.Index].Intersects(r) &&
                         forall i :: 0 <= i < f.value.Index ==> !rects[i].Intersects(r))
  {
    var l := LayerHits(kind, rects, r);
    LayerHitsSpec(kind, rects, r);
    if l != [] {
      assert First(l, ks) == Some(l[0]);
    }
  }

  /** The tags that block the player. */
  const Blocking: set<Object.Type> := {Object.StaticTile, Object.InvWall}

  /** The lowest-positioned intersecting rectangle of a sequence. */
  predicate LowestHit(rects: seq<Rectangle>, r: Rectangle, i: nat) {
    i < |rects| && rects[i].Intersects(r) && forall j :: 0 <= j < i ==> !rects[j].Intersects(r)
  }

  /** Blocking hits are exactly the static-tile hits, and the first is the lowest tile that intersects. */
  lemma FirstBlocking(w: World, r: Rectangle)
    ensures var f := First(Hits(w, r), Blocking);
            (f.None? <==> !HitsTile(w.Tiles, r)) &&
            (f.Some? ==> f.value.Kind == Object.StaticTile && LowestHit(TileRects(w), r, f.value.Index))
  {
    var ks := Blocking;
    FirstOfOtherLayer(Object.BackgroundImage, BackgroundRects(w), r, ks);
    FirstOfLayer(Object.StaticTile, TileRects(w), r, ks);
    FirstOfOtherLayer(Object.Item, ItemRects(w), r, ks);
    FirstOfOtherLayer(Object.Portal, PortalRects(w), r, ks);
    FirstOfOtherLayer(Object.Spike, SpikeRects(w), r, ks);
    FirstOfOtherLayer(Object.NPC, NpcRects(w), r, ks);
    FirstOfOtherLayer(Object.Arcade, ArcadeRects(w), r, ks);
    FirstOfOtherLayer(Object.Player, [w.Player.Rectangle()], r, ks);
    FirstOfOtherLayer(Object.EnemyBullet, BulletRects(w), r, ks);
    FirstOfSecondLayer(LayerHits(Object.BackgroundImage, BackgroundRects(w), r),
                       LayerHits(Object.StaticTile, TileRects(w), r),
                       LayerHits(Object.Item, ItemRects(w), r),
                       LayerHits(Object.Portal, PortalRects(w), r),
                       LayerHits(Object.Spike, SpikeRects(w), r),
                       LayerHits(Object.NPC, NpcRects(w), r),
                       LayerHits(Object.Arcade, ArcadeRects(w), r),
                       LayerHits(Object.Player, [w.Player.Rectangle()], r),
                       LayerHits(Object.EnemyBullet, BulletRects(w), r), ks);
  }

  /** The NPC chosen is the lowest-positioned one intersecting the query. */
  lemma FirstNpc(w: World, r: Rectangle)
    ensures var f := First(Hits(w, r), {Object.NPC});
            (f.None? <==> forall i :: 0 <= i < |w.NPCs| ==> !w.NPCs[i].Rectangle().Intersects(r)) &&
            (f.Some? ==> f.value.Kind == Object.NPC && LowestHit(NpcRects(w), r, f.value.Index))
  {
    var ks := {Object.NPC};
    FirstOfOtherLayer(Object.BackgroundImage, BackgroundRects(w), r, ks);
    FirstOfOtherLayer(Object.StaticTile, TileRects(w), r, ks);
    FirstOfOtherLayer(Object.Item, ItemRects(w), r, ks);
    FirstOfOtherLayer(Object.Portal, PortalRects(w), r, ks);
    FirstOfOtherLayer(Object.Spike, SpikeRects(w), r, ks);
    FirstOfLayer(Object.NPC, NpcRects(w), r, ks);
    FirstOfOtherLayer(Object.Arcade, ArcadeRects(w), r, ks);
    FirstOfOtherLayer(Object.Player, [w.Player.Rectangle()], r, ks);
    FirstOfOtherLayer(Object.EnemyBullet, BulletRects(w), r, ks);
    FirstOfSixthLayer(LayerHits(Object.BackgroundImage, BackgroundRects(w), r),
                      LayerHits(Object.StaticTile, TileRects(w), r),
                      LayerHits(Object.Item, ItemRects(w), r),
                      LayerHits(Object.Portal, PortalRects(w), r),
                      LayerHits(Object.Spike, SpikeRects(w), r),
                      LayerHits(Object.NPC, NpcRects(w), r),
                      LayerHits(Object.Arcade, ArcadeRects(w), r),
                      LayerHits(Object.Player, [w.Player.Rectangle()], r),
                      LayerHits(Object.EnemyBullet, BulletRects(w), r), ks);
  }

  // ---- Alignment ------------------------------------------------------------

  /** The rectangle of the first blocking hit, if any. */
  function Blocker(w: World): Option<Rectangle> {
    match First(Hits(w, PlayerRect(w)), Blocking)
    case None => None
    case Some(h) => HitRect(w, h)
  }

  /** `AlignPlayerX`: pushed horizontally out of the first blocking tile, if any. */
  function AlignX(w: World): World {
    match Blocker(w)
    case None => w
    case Some(b) => MovePlayer(w, b.PushVectorX(PlayerRect(w)))
  }

  /**
   * `AlignPlayerY`: leaves the ground, then is pushed vertically out of the
   * first blocking tile; an upward push lands the player, any other push
   * stops the vertical motion.
   */
  function AlignY(w: World): World {
    var w1 := w.(Player := w.Player.(Ground := w.Player.Ground.SetOnGround(false, w.Tick)));
    match Blocker(w)
    case None => w1
    case Some(b) => Land(w1, b.PushVectorY(PlayerRect(w)))
  }

  /** The player pushed by `pv`: grounded by an upward push, otherwise stopped vertically. */
  function Land(w: World, pv: Vector): (v: World)
    ensures v == w.(Player := v.Player)
    ensures v.Player == w.Player.(Base := w.Player.Base.Move(pv),
                                  Ground := if pv.Y < 0.0 then w.Player.Ground.SetOnGround(true, w.Tick) else w.Player.Ground,
                                  Speed := if pv.Y < 0.0 then w.Player.Speed else w.Player.Speed.(Y := 0.0))
  {
    var w2 := MovePlayer(w, pv);
    if pv.Y < 0.0 then w2.(Player := w2.Player.(Ground := w2.Player.Ground.SetOnGround(true, w.Tick)))
    else w2.(Player := w2.Player.(Speed := w2.Player.Speed.(Y := 0.0)))
  }

  /** The blocker is the lowest tile the player overlaps; invisible walls are never scanned. */
  lemma BlockerIsLowestTile(w: World)
    ensures Blocker(w).None? <==> !HitsTile(w.Tiles, PlayerRect(w))
    ensures forall t: nat :: LowestHit(TileRects(w), PlayerRect(w), t) ==> Blocker(w) == Some(w.Tiles[t].Rectangle())
  {
    FirstBlocking(w, PlayerRect(w));
    forall t: nat | LowestHit(TileRects(w), PlayerRect(w), t) ensures Blocker(w) == Some(w.Tiles[t].Rectangle()) {
      var f := First(Hits(w, PlayerRect(w)), Blocking);
      assert f.Some?;
      var u := f.value.Index;
      assert LowestHit(TileRects(w), PlayerRect(w), u);
      assert !(u < t) && !(t < u);
    }
  }

  /**
   * Horizontal alignment: without an overlapped tile nothing changes;
   * otherwise only the player moves, along X, by the push out of the lowest
   * tile it overlaps, and a non-zero push leaves it clear of that tile.
   */
  lemma AlignXEffect(w: World, t: nat)
    ensures !HitsTile(w.Tiles, PlayerRect(w)) ==> AlignX(w) == w
    ensures LowestHit(TileRects(w), PlayerRect(w), t) ==>
              var a := w.Tiles[t].Rectangle();
              var pv := a.PushVectorX(PlayerRect(w));
              AlignX(w) == MovePlayer(w, pv) && pv.Y == 0.0 &&
              (pv != Zero ==> !a.Intersects(PlayerRect(AlignX(w))))
  {
    BlockerIsLowestTile(w);
    if LowestHit(TileRects(w), PlayerRect(w), t) {
      var a := w.Tiles[t].Rectangle();
      PushVectorSeparates(a, PlayerRect(w));
      PushVectorXChoice(a, PlayerRect(w));
    }
  }

  /**
   * Vertical alignment: the player always first leaves the ground; an
   * upward push out of the lowest overlapped tile lands it, any other push
   * stops its vertical motion.
   */
  lemma AlignYEffect(w: World, t: nat)
    ensures var air := w.Player.Ground.SetOnGround(false, w.Tick);
            !HitsTile(w.Tiles, PlayerRect(w)) ==> AlignY(w) == w.(Player := w.Player.(Ground := air))
    ensures LowestHit(TileRects(w), PlayerRect(w), t) ==>
              var a := w.Tiles[t].Rectangle();
              var pv := a.PushVectorY(PlayerRect(w));
              var v := AlignY(w);
              var air := w.Player.Ground.SetOnGround(false, w.Tick);
              v.Player.Base == w.Player.Base.Move(pv) && pv.X == 0.0 &&
              v == w.(Player := v.Player) &&
              v.Player.Health == w.Player.Health && v.Player.Inventory == w.Player.Inventory &&
              (pv.Y < 0.0 ==> v.Player.Ground == air.SetOnGround(true, w.Tick) && v.Player.Speed == w.Player.Speed) &&
              (pv.Y >= 0.0 ==> v.Player.Ground == air && v.Player.Speed == w.Player.Speed.(Y := 0.0))
  {
    BlockerIsLowestTile(w);
    if LowestHit(TileRects(w), PlayerRect(w), t) {
      PushVectorYChoice(w.Tiles[t].Rectangle(), PlayerRect(w));
    }
  }

  /** Landing: an upward push leaves the player on the ground with the coyote flag set. */
  lemma LandingGrounds(g: Players.Grounding, tick: int)
    ensures g.SetOnGround(false, tick).SetOnGround(true, tick).OnGround
    ensures g.SetOnGround(false, tick).SetOnGround(true, tick).Coyote
  {
  }

  // ---- Folds restricted to one layer ----------------------------------------

  /** `step` changes nothing for hits of other kinds. */
  ghost predicate Ignores(step: (World, Hit) -> World, kind: Object.Type) {
    forall v: World, h: Hit :: h.Kind != kind ==> step(v, h) == v
  }

  lemma FoldDropRight(w: World, a: seq<Hit>, b: seq<Hit>, step: (World, Hit) -> World, kind: Object.Type)
    requires Ignores(step, kind)
    requires forall h :: h in b ==> h.Kind != kind
    ensures Fold(w, a + b, step) == Fold(w, a, step)
  {
    FoldAppend(w, a, b, step);
    FoldIgnores(Fold(w, a, step), b, step, kind);
  }

  lemma FoldDropLeft(w: World, a: seq<Hit>, b: seq<Hit>, step: (World, Hit) -> World, kind: Object.Type)
    requires Ignores(step, kind)
    requires forall h :: h in a ==> h.Kind != kind
    ensures Fold(w, a + b, step) == Fold(w, b, step)
  {
    FoldAppend(w, a, b, step);
    FoldIgnores(w, a, step, kind);
  }

  lemma FoldSnoc(w: World, a: seq<Hit>, h: Hit, step: (World, Hit) -> World)
    ensures Fold(w, a + [h], step) == step(Fold(w, a, step), h)
  {
    assert (a + [h])[..|a|] == a;
  }

  lemma LayerHitsSnoc(kind: Object.Type, rects: seq<Rectangle>, r: Rectangle, k: nat)
    requires k < |rects|
    ensures LayerHits(kind, rects[..k + 1], r) ==
            LayerHits(kind, rects[..k], r) + (if rects[k].Intersects(r) then [Hit(kind, k)] else [])
  {
    assert rects[..k + 1][..k] == rects[..k];
  }

  lemma FoldPortalLayer(w0: World, w: World, r: Rectangle, step: (World, Hit) -> World)
    requires Ignores(step, Object.Portal)
    ensures Fold(w0, Hits(w, r), step) == Fold(w0, LayerHits(Object.Portal, PortalRects(w), r), step)
  {
    LayersOfKind(w, r);
    var l0 := LayerHits(Object.BackgroundImage, BackgroundRects(w), r);
    var l1 := LayerHits(Object.StaticTile, TileRects(w), r);
    var l2 := LayerHits(Object.Item, ItemRects(w), r);
    var l3 := LayerHits(Object.Portal, PortalRects(w), r);
    var l4 := LayerHits(Object.Spike, SpikeRects(w), r);
    var l5 := LayerHits(Object.NPC, NpcRects(w), r);
    var l6 := LayerHits(Object.Arcade, ArcadeRects(w), r);
    var l7 := LayerHits(Object.Player, [w.Player.Rectangle()], r);
    var l8 := LayerHits(Object.EnemyBullet, BulletRects(w), r);
    var k := Object.Portal;
    FoldDropRight(w0, l0 + l1 + l2 + l3 + l4 + l5 + l6 + l7, l8, step, k);
    FoldDropRight(w0, l0 + l1 + l2 + l3 + l4 + l5 + l6, l7, step, k);
    FoldDropRight(w0, l0 + l1 + l2 + l3 + l4 + l5, l6, step, k);
    FoldDropRight(w0, l0 + l1 + l2 + l3 + l4, l5, step, k);
    FoldDropRight(w0, l0 + l1 + l2 + l3, l4, step, k);
    FoldDropLeft(w0, l0 + l1 + l2, l3, step, k);
  }

  lemma FoldSpikeLayer(w0: World, w: World, r: Rectangle, step: (World, Hit) -> World)
    requires Ignores(step, Object.Spike)
    ensures Fold(w0, Hits(w, r), step) == Fold(w0, LayerHits(Object.Spike, SpikeRects(w), r), step)
  {
    LayersOfKind(w, r);
    var l0 := LayerHits(Object.BackgroundImage, BackgroundRects(w), r);
    var l1 := LayerHits(Object.StaticTile, TileRects(w), r);
    var l2 := LayerHits(Object.Item, ItemRects(w), r);
    var l3 := LayerHits(Object.Portal, PortalRects(w), r);
    var l4 := LayerHits(Object.Spike, SpikeRects(w), r);
    var l5 := LayerHits(Object.NPC, NpcRects(w), r);
    var l6 := LayerHits(Object.Arcade, ArcadeRects(w), r);
    var l7 := LayerHits(Object.Player, [w.Player.Rectangle()], r);
    var l8 := LayerHits(Object.EnemyBullet, BulletRects(w), r);
    var k := Object.Spike;
    FoldDropRight(w0, l0 + l1 + l2 + l3 + l4 + l5 + l6 + l7, l8, step, k);
    FoldDropRight(w0, l0 + l1 + l2 + l3 + l4 + l5 + l6, l7, step, k);
    FoldDropRight(w0, l0 + l1 + l2 + l3 + l4 + l5, l6, step, k);
    FoldDropRight(w0, l0 + l1 + l2 + l3 + l4, l5, step, k);
    FoldDropLeft(w0, l0 + l1 + l2 + l3, l4, step, k);
  }

  lemma FoldItemLayer(w0: World, w: World, r: Rectangle, step: (World, Hit) -> World)
    requires Ignores(step, Object.Item)
    ensures Fold(w0, Hits(w, r), step) == Fold(w0, LayerHits(Object.Item, ItemRects(w), r), step)
  {
    LayersOfKind(w, r);
    var l0 := LayerHits(Object.BackgroundImage, BackgroundRects(w), r);
    var l1 := LayerHits(Object.StaticTile, TileRects(w), r);
    var l2 := LayerHits(Object.Item, ItemRects(w), r);
    var l3 := LayerHits(Object.Portal, PortalRects(w), r);
    var l4 := LayerHits(Object.Spike, SpikeRects(w), r);
    var l5 := LayerHits(Object.NPC, NpcRects(w), r);
    var l6 := LayerHits(Object.Arcade, ArcadeRects(w), r);
    var l7 := LayerHits(Object.Player, [w.Player.Rectangle()], r);
    var l8 := LayerHits(Object.EnemyBullet, BulletRects(w), r);
    var k := Object.Item;
    FoldDropRight(w0, l0 + l1 + l2 + l3 + l4 + l5 + l6 + l7, l8, step, k);
    FoldDropRight(w0, l0 + l1 + l2 + l3 + l4 + l5 + l6, l7, step, k);
    FoldDropRight(w0, l0 + l1 + l2 + l3 + l4 + l5, l6, step, k);
    FoldDropRight(w0, l0 + l1 + l2 + l3 + l4, l5, step, k);
    FoldDropRight(w0, l0 + l1 + l2 + l3, l4, step, k);
    FoldDropRight(w0, l0 + l1 + l2, l3, step, k);
    FoldDropLeft(w0, l0 + l1, l2, step, k);
  }

  lemma FoldBulletLayer(w0: World, w: World, r: Rectangle, step: (World, Hit) -> World)
    requires Ignores(step, Object.EnemyBullet)
    ensures Fold(w0, Hits(w, r), step) == Fold(w0, LayerHits(Object.EnemyBullet, BulletRects(w), r), step)
  {
    LayersOfKind(w, r);
    var l0 := LayerHits(Object.BackgroundImage, BackgroundRects(w), r);
    var l1 := LayerHits(Object.StaticTile, TileRects(w), r);
    var l2 := LayerHits(Object.Item, ItemRects(w), r);
    var l3 := LayerHits(Object.Portal, PortalRects(w), r);
    var l4 := LayerHits(Object.Spike, SpikeRects(w), r);
    var l5 := LayerHits(Object.NPC, NpcRects(w), r);
    var l6 := LayerHits(Object.Arcade, ArcadeRects(w), r);
    var l7 := LayerHits(Object.Player, [w.Player.Rectangle()], r);
    var l8 := LayerHits(Object.EnemyBullet, BulletRects(w), r);
    FoldDropLeft(w0, l0 + l1 + l2 + l3 + l4 + l5 + l6 + l7, l8, step, Object.EnemyBullet);
  }

  // ---- Portals --------------------------------------------------------------

  /** One iteration of `CheckPortals`: a linked portal moves the player to its destination. */
  function PortalStep(w: World, h: Hit): World {
    if h.Kind == Object.Portal && h.Index < |w.Portals| && w.Portals[h.Index].TeleportTo.Some? then
      w.(Player := w.Player.(Base := w.Player.Base.MoveTo(w.Portals[h.Index].TeleportTo.value)))
    else w
  }

  function CheckPortals(w: World): World {
    Fold(w, Hits(w, PlayerRect(w)), PortalStep)
  }

  /** The destination of the last linked portal, in slice order, that intersects `r`. */
  function LastTeleport(portals: seq<Portals.Portal>, r: Rectangle): Option<Point>
    decreases |portals|
  {
    if portals == [] then None
    else
      var n := |portals| - 1;
      if portals[n].Rectangle().Intersects(r) && portals[n].TeleportTo.Some? then portals[n].TeleportTo
      else LastTeleport(portals[..n], r)
  }

  function Teleported(w: World, p: Option<Point>): World {
    match p
    case None => w
    case Some(q) => w.(Player := w.Player.(Base := w.Player.Base.MoveTo(q)))
  }

  lemma {:induction false} PortalLayer(w: World, r: Rectangle, k: nat)
    requires k <= |w.Portals|
    ensures Fold(w, LayerHits(Object.Portal, PortalRects(w)[..k], r), PortalStep) == Teleported(w, LastTeleport(w.Portals[..k], r))
    decreases k
  {
    if k == 0 {
      assert PortalRects(w)[..0] == [];
      assert w.Portals[..0] == [];
    } else {
      PortalLayer(w, r, k - 1);
      LayerHitsSnoc(Object.Portal, PortalRects(w), r, k - 1);
      PortalSnoc(w, r, k - 1, LayerHits(Object.Portal, PortalRects(w)[..k - 1], r), LayerHits(Object.Portal, PortalRects(w)[..k], r));
    }
  }

  lemma PortalSnoc(w: World, r: Rectangle, k: nat, pre: seq<Hit>, cur: seq<Hit>)
    requires k < |w.Portals|
    requires cur == pre + (if w.Portals[k].Rectangle().Intersects(r) then [Hit(Object.Portal, k)] else [])
    requires Fold(w, pre, PortalStep) == Teleported(w, LastTeleport(w.Portals[..k], r))
    ensures Fold(w, cur, PortalStep) == Teleported(w, LastTeleport(w.Portals[..k + 1], r))
  {
    var ps := w.Portals[..k + 1];
    assert ps[..k] == w.Portals[..k] && ps[k] == w.Portals[k];
    var last := LastTeleport(ps, r);
    if w.Portals[k].Rectangle().Intersects(r) {
      FoldSnoc(w, pre, Hit(Object.Portal, k), PortalStep);
      var s := Fold(w, pre, PortalStep);
      assert s.Portals == w.Portals;
      if w.Portals[k].TeleportTo.Some? {
        assert last == w.Portals[k].TeleportTo;
      } else {
        assert last == LastTeleport(w.Portals[..k], r);
      }
    } else {
      assert cur == pre;
      assert last == LastTeleport(w.Portals[..k], r);
    }
  }

  /** The player ends at the destination of the last overlapping linked portal; nothing else changes. */
  lemma CheckPortalsEffect(w: World)
    ensures CheckPortals(w) == Teleported(w, LastTeleport(w.Portals, PlayerRect(w)))
  {
    FoldPortalLayer(w, w, PlayerRect(w), PortalStep);
    PortalLayer(w, PlayerRect(w), |w.Portals|);
    assert PortalRects(w)[..|w.Portals|] == PortalRects(w);
    assert w.Portals[..|w.Portals|] == w.Portals;
  }

  // ---- Spikes ---------------------------------------------------------------

  /** One iteration of `CheckSpikes`: the spike's damage is taken. */
  function SpikeStep(w: World, h: Hit): World {
    if h.Kind == Object.Spike && h.Index < |w.Spikes| then
      w.(Player := w.Player.(Health := w.Player.Health - w.Spikes[h.Index].Damage))
    else w
  }

  function CheckSpikes(w: World): World {
    Fold(w, Hits(w, PlayerRect(w)), SpikeStep)
  }

  /** The total damage of the spikes that intersect `r`. */
  function SpikeDamageAt(spikes: seq<Damage.Spike>, r: Rectangle): int
    decreases |spikes|
  {
    if spikes == [] then 0
    else
      var n := |spikes| - 1;
      SpikeDamageAt(spikes[..n], r) + (if spikes[n].Rectangle().Intersects(r) then spikes[n].Damage else 0)
  }

  function Damaged(w: World, d: int): World {
    w.(Player := w.Player.(Health := w.Player.Health - d))
  }

  lemma {:induction false} SpikeLayer(w: World, r: Rectangle, k: nat)
    requires k <= |w.Spikes|
    ensures Fold(w, LayerHits(Object.Spike, SpikeRects(w)[..k], r), SpikeStep) == Damaged(w, SpikeDamageAt(w.Spikes[..k], r))
    decreases k
  {
    if k == 0 {
      assert SpikeRects(w)[..0] == [];
      assert w.Spikes[..0] == [];
    } else {
      SpikeLayer(w, r, k - 1);
      LayerHitsSnoc(Object.Spike, SpikeRects(w), r, k - 1);
      SpikeSnoc(w, r, k - 1, LayerHits(Object.Spike, SpikeRects(w)[..k - 1], r), LayerHits(Object.Spike, SpikeRects(w)[..k], r));
    }
  }

  lemma SpikeSnoc(w: World, r: Rectangle, k: nat, pre: seq<Hit>, cur: seq<Hit>)
    requires k < |w.Spikes|
    requires cur == pre + (if w.Spikes[k].Rectangle().Intersects(r) then [Hit(Object.Spike, k)] else [])
    requires Fold(w, pre, SpikeStep) == Damaged(w, SpikeDamageAt(w.Spikes[..k], r))
    ensures Fold(w, cur, SpikeStep) == Damaged(w, SpikeDamageAt(w.Spikes[..k + 1], r))
  {
    assert w.Spikes[..k + 1][..k] == w.Spikes[..k];
    if w.Spikes[k].Rectangle().Intersects(r) {
      FoldSnoc(w, pre, Hit(Object.Spike, k), SpikeStep);
    } else {
      assert cur == pre;
    }
  }

  /** Health drops by the summed damage of every spike the player overlaps; nothing else changes. */
  lemma CheckSpikesEffect(w: World)
    ensures CheckSpikes(w) == Damaged(w, SpikeDamageAt(w.Spikes, PlayerRect(w)))
  {
    FoldSpikeLayer(w, w, PlayerRect(w), SpikeStep);
    SpikeLayer(w, PlayerRect(w), |w.Spikes|);
    assert SpikeRects(w)[..|w.Spikes|] == SpikeRects(w);
    assert w.Spikes[..|w.Spikes|] == w.Spikes;
  }

  // ---- Enemy bullets --------------------------------------------------------

  function Advanced(b: Damage.Bullet): Damage.Bullet {
    b.(Base := b.Base.Move(b.Direction))
  }

  /** The positions of the bullets that touch no static tile once advanced, in ascending order. */
  function SurvivorIndices(tiles: seq<Tiles.StaticTile>, bs: seq<Damage.Bullet>): (ks: seq<nat>)
    ensures forall j :: 0 <= j < |ks| ==> ks[j] < |bs|
    ensures forall j, j' :: 0 <= j < j' < |ks| ==> ks[j] < ks[j']
    ensures forall i :: 0 <= i < |bs| ==> (i in ks <==> !HitsTile(tiles, Advanced(bs[i]).Rectangle()))
    decreases |bs|
  {
    if bs == [] then []
    else
      var n := |bs| - 1;
      var p := SurvivorIndices(tiles, bs[..n]);
      assert forall i :: 0 <= i < n ==> bs[..n][i] == bs[i];
      if HitsTile(tiles, Advanced(bs[n]).Rectangle()) then p else p + [n]
  }

  /** The first loop of `CheckEnemyBullets`: every bullet advances, and those now on a tile are dropped. */
  function SurvivingBullets(tiles: seq<Tiles.StaticTile>, bs: seq<Damage.Bullet>): (r: seq<Damage.Bullet>)
    ensures var ks := SurvivorIndices(tiles, bs);
            |r| == |ks| && forall j :: 0 <= j < |ks| ==> r[j] == Advanced(bs[ks[j]])
    ensures |r| <= |bs|
    ensures forall b :: b in r ==> !HitsTile(tiles, b.Rectangle())
    ensures forall i :: 0 <= i < |bs| && !HitsTile(tiles, Advanced(bs[i]).Rectangle()) ==> Advanced(bs[i]) in r
    ensures forall b :: b in r ==> exists i :: 0 <= i < |bs| && b == Advanced(bs[i])
    decreases |bs|
  {
    if bs == [] then []
    else
      var n := |bs| - 1;
      var p := SurvivingBullets(tiles, bs[..n]);
      assert forall i :: 0 <= i < n ==> bs[..n][i] == bs[i];
      var b := Advanced(bs[n]);
      if HitsTile(tiles, b.Rectangle()) then p else p + [b]
  }

  /** One iteration of the second loop: an untriggered bullet hurts once and is marked triggered. */
  function TriggerStep(w: World, h: Hit): World {
    if h.Kind == Object.EnemyBullet && h.Index < |w.EnemyBullets| && !w.EnemyBullets[h.Index].Triggered then
      var b := w.EnemyBullets[h.Index];
      w.(Player := w.Player.(Health := w.Player.Health - b.Damage),
         EnemyBullets := w.EnemyBullets[h.Index := b.(Triggered := true)])
    else w
  }

  function CheckEnemyBullets(w: World): World {
    var w1 := w.(EnemyBullets := SurvivingBullets(w.Tiles, w.EnemyBullets));
    Fold(w1, Hits(w1, PlayerRect(w1)), TriggerStep)
  }

  /** Each bullet overlapping `r` marked triggered. */
  function Triggered(bs: seq<Damage.Bullet>, r: Rectangle): (t: seq<Damage.Bullet>)
    ensures |t| == |bs|
    decreases |bs|
  {
    if bs == [] then []
    else
      var n := |bs| - 1;
      Triggered(bs[..n], r) + [if bs[n].Rectangle().Intersects(r) then bs[n].(Triggered := true) else bs[n]]
  }

  /** The damage of the untriggered bullets overlapping `r`. */
  function BulletDamageAt(bs: seq<Damage.Bullet>, r: Rectangle): int
    decreases |bs|
  {
    if bs == [] then 0
    else
      var n := |bs| - 1;
      BulletDamageAt(bs[..n], r) + (if bs[n].Rectangle().Intersects(r) && !bs[n].Triggered then bs[n].Damage else 0)
  }

  lemma {:induction false} BulletLayer(w: World, r: Rectangle, k: nat)
    requires k <= |w.EnemyBullets|
    ensures Fold(w, LayerHits(Object.EnemyBullet, BulletRects(w)[..k], r), TriggerStep) == BulletsAfter(w, r, k)
    decreases k
  {
    if k == 0 {
      assert BulletRects(w)[..0] == [];
      assert w.EnemyBullets[..0] == [] && w.EnemyBullets[0..] == w.EnemyBullets;
    } else {
      BulletLayer(w, r, k - 1);
      LayerHitsSnoc(Object.EnemyBullet, BulletRects(w), r, k - 1);
      BulletSnoc(w, r, k - 1, LayerHits(Object.EnemyBullet, BulletRects(w)[..k - 1], r),
                 LayerHits(Object.EnemyBullet, BulletRects(w)[..k], r));
    }
  }

  /** The state after the first `k` bullets were considered. */
  function BulletsAfter(w: World, r: Rectangle, k: nat): World
    requires k <= |w.EnemyBullets|
  {
    Damaged(w, BulletDamageAt(w.EnemyBullets[..k], r))
      .(EnemyBullets := Triggered(w.EnemyBullets[..k], r) + w.EnemyBullets[k..])
  }

  /** Triggering one more bullet and adding its damage, as sequence facts. */
  lemma TriggeredSnoc(bs: seq<Damage.Bullet>, r: Rectangle, k: nat)
    requires k < |bs|
    ensures var b := bs[k];
            Triggered(bs[..k + 1], r) + bs[k + 1..] ==
              (Triggered(bs[..k], r) + bs[k..])[k := if b.Rectangle().Intersects(r) then b.(Triggered := true) else b]
    ensures var b := bs[k];
            BulletDamageAt(bs[..k + 1], r) ==
              BulletDamageAt(bs[..k], r) + (if b.Rectangle().Intersects(r) && !b.Triggered then b.Damage else 0)
  {
    assert bs[..k + 1][..k] == bs[..k];
    assert bs[k..] == [bs[k]] + bs[k + 1..];
  }

  lemma BulletSnoc(w: World, r: Rectangle, k: nat, pre: seq<Hit>, cur: seq<Hit>)
    requires k < |w.EnemyBullets|
    requires cur == pre + (if w.EnemyBullets[k].Rectangle().Intersects(r) then [Hit(Object.EnemyBullet, k)] else [])
    requires Fold(w, pre, TriggerStep) == BulletsAfter(w, r, k)
    ensures Fold(w, cur, TriggerStep) == BulletsAfter(w, r, k + 1)
  {
    var b := w.EnemyBullets[k];
    TriggeredSnoc(w.EnemyBullets, r, k);
    assert BulletsAfter(w, r, k).EnemyBullets[k] == b;
    if b.Rectangle().Intersects(r) {
      FoldSnoc(w, pre, Hit(Object.EnemyBullet, k), TriggerStep);
      if b.Triggered {
        assert b.(Triggered := true) == b;
      }
    } else {
      assert cur == pre;
    }
  }

  /**
   * Bullets advance, those on a tile vanish, and the player takes the damage
   * of every untriggered survivor it overlaps, each of which becomes triggered.
   */
  lemma CheckEnemyBulletsEffect(w: World)
    ensures var bs := SurvivingBullets(w.Tiles, w.EnemyBullets);
            CheckEnemyBullets(w) == Damaged(w, BulletDamageAt(bs, PlayerRect(w))).(EnemyBullets := Triggered(bs, PlayerRect(w)))
  {
    TriggerAfter(w, SurvivingBullets(w.Tiles, w.EnemyBullets));
  }

  /** The second loop of `CheckEnemyBullets`, whatever bullets the first one left. */
  lemma TriggerAfter(w: World, bs: seq<Damage.Bullet>)
    ensures var w1 := w.(EnemyBullets := bs);
            Fold(w1, Hits(w1, PlayerRect(w1)), TriggerStep) == Damaged(w, BulletDamageAt(bs, PlayerRect(w))).(EnemyBullets := Triggered(bs, PlayerRect(w)))
  {
    var w1 := w.(EnemyBullets := bs);
    var r := PlayerRect(w1);
    assert r == PlayerRect(w);
    FoldBulletLayer(w1, w1, r, TriggerStep);
    AllBullets(w1, r);
  }

  /** The whole bullet layer: the damage of the untriggered overlapping bullets, and those bullets triggered. */
  lemma AllBullets(w: World, r: Rectangle)
    ensures Fold(w, LayerHits(Object.EnemyBullet, BulletRects(w), r), TriggerStep) ==
            Damaged(w, BulletDamageAt(w.EnemyBullets, r)).(EnemyBullets := Triggered(w.EnemyBullets, r))
  {
    var bs := w.EnemyBullets;
    BulletLayer(w, r, |bs|);
    assert BulletRects(w)[..|bs|] == BulletRects(w);
    assert bs[..|bs|] == bs && bs[|bs|..] == [];
    assert Triggered(bs, r) + [] == Triggered(bs, r);
  }

  // ---- Items ----------------------------------------------------------------

  /** One iteration of `CollectItems`: an uncollected item is collected and added to the inventory. */
  function CollectStep(w: World, h: Hit): World {
    if h.Kind == Object.Item && h.Index < |w.Items| && !w.Items[h.Index].Collected then
      var c := Players.CollectedItem(w.Items[h.Index]);
      w.(Items := w.Items[h.Index := c], Player := w.Player.(Inventory := w.Player.Inventory + [c]))
    else w
  }

  function Collected(w: World): World {
    Fold(w, Hits(w, PlayerRect(w)), CollectStep)
  }

  /** The items overlapping `r` marked collected. */
  function MarkCollected(items: seq<Items.Item>, r: Rectangle): (m: seq<Items.Item>)
    ensures |m| == |items|
    decreases |items|
  {
    if items == [] then []
    else
      var n := |items| - 1;
      MarkCollected(items[..n], r) + [if items[n].Rectangle().Intersects(r) then Players.CollectedItem(items[n]) else items[n]]
  }

  /** The uncollected items overlapping `r`, collected, in slice order: what the inventory gains. */
  function Pickups(items: seq<Items.Item>, r: Rectangle): seq<Items.Item>
    decreases |items|
  {
    if items == [] then []
    else
      var n := |items| - 1;
      Pickups(items[..n], r) +
      (if items[n].Rectangle().Intersects(r) && !items[n].Collected then [Players.CollectedItem(items[n])] else [])
  }

  function PickedUp(w: World, r: Rectangle): World {
    w.(Items := MarkCollected(w.Items, r), Player := w.Player.(Inventory := w.Player.Inventory + Pickups(w.Items, r)))
  }

  lemma {:induction false} ItemLayer(w: World, r: Rectangle, k: nat)
    requires k <= |w.Items|
    ensures Fold(w, LayerHits(Object.Item, ItemRects(w)[..k], r), CollectStep) == ItemsAfter(w, r, k)
    decreases k
  {
    if k == 0 {
      assert ItemRects(w)[..0] == [];
      ItemsAfterNone(w, r);
    } else {
      ItemLayer(w, r, k - 1);
      LayerHitsSnoc(Object.Item, ItemRects(w), r, k - 1);
      ItemSnoc(w, r, k - 1, LayerHits(Object.Item, ItemRects(w)[..k - 1], r), LayerHits(Object.Item, ItemRects(w)[..k], r));
    }
  }

  /** The state after the first `k` items were considered. */
  function ItemsAfter(w: World, r: Rectangle, k: nat): World
    requires k <= |w.Items|
  {
    w.(Items := MarkCollected(w.Items[..k], r) + w.Items[k..],
       Player := w.Player.(Inventory := w.Player.Inventory + Pickups(w.Items[..k], r)))
  }

  lemma ItemsAfterNone(w: World, r: Rectangle)
    ensures ItemsAfter(w, r, 0) == w
  {
    assert w.Items[..0] == [] && w.Items[0..] == w.Items;
    assert MarkCollected([], r) + w.Items == w.Items;
    assert w.Player.Inventory + Pickups([], r) == w.Player.Inventory;
  }

  /** Marking one more item and picking it up, as sequence facts. */
  lemma MarkCollectedSnoc(items: seq<Items.Item>, r: Rectangle, k: nat)
    requires k < |items|
    ensures var it := items[k];
            MarkCollected(items[..k + 1], r) + items[k + 1..] ==
              (MarkCollected(items[..k], r) + items[k..])[k := if it.Rectangle().Intersects(r) then Players.CollectedItem(it) else it]
    ensures var it := items[k];
            Pickups(items[..k + 1], r) ==
              Pickups(items[..k], r) + (if it.Rectangle().Intersects(r) && !it.Collected then [Players.CollectedItem(it)] else [])
  {
    assert items[..k + 1][..k] == items[..k];
    assert items[k..] == [items[k]] + items[k + 1..];
  }

  lemma ItemSnoc(w: World, r: Rectangle, k: nat, pre: seq<Hit>, cur: seq<Hit>)
    requires k < |w.Items|
    requires cur == pre + (if w.Items[k].Rectangle().Intersects(r) then [Hit(Object.Item, k)] else [])
    requires Fold(w, pre, CollectStep) == ItemsAfter(w, r, k)
    ensures Fold(w, cur, CollectStep) == ItemsAfter(w, r, k + 1)
  {
    var it := w.Items[k];
    MarkCollectedSnoc(w.Items, r, k);
    assert ItemsAfter(w, r, k).Items[k] == it;
    if it.Rectangle().Intersects(r) {
      FoldSnoc(w, pre, Hit(Object.Item, k), CollectStep);
      if it.Collected {
        assert Players.CollectedItem(it) == it;
      }
    } else {
      assert cur == pre;
    }
  }

  /** Every uncollected item the player overlaps is collected once and appended, in slice order. */
  lemma CollectedEffect(w: World)
    ensures Collected(w) == PickedUp(w, PlayerRect(w))
  {
    FoldItemLayer(w, w, PlayerRect(w), CollectStep);
    ItemLayer(w, PlayerRect(w), |w.Items|);
    assert ItemRects(w)[..|w.Items|] == ItemRects(w);
    assert w.Items[..|w.Items|] == w.Items && w.Items[|w.Items|..] == [];
    assert MarkCollected(w.Items, PlayerRect(w)) + [] == MarkCollected(w.Items, PlayerRect(w));
  }

  /** After pickup, an item is collected iff it was collected or overlaps; nothing else about it changes. */
  lemma {:induction false} MarkCollectedAt(items: seq<Items.Item>, r: Rectangle, i: nat)
    requires i < |items|
    ensures MarkCollected(items, r)[i].Collected == (items[i].Collected || items[i].Rectangle().Intersects(r))
    ensures MarkCollected(items, r)[i].(Collected := items[i].Collected) == items[i]
    decreases |items|
  {
    var n := |items| - 1;
    if i < n {
      MarkCollectedAt(items[..n], r, i);
    }
  }

  /** Nothing is picked up iff every overlapping item was already collected. */
  lemma {:induction false} PickupsEmptyIff(items: seq<Items.Item>, r: Rectangle)
    ensures Pickups(items, r) == [] <==>
            forall i :: 0 <= i < |items| ==> items[i].Collected || !items[i].Rectangle().Intersects(r)
    decreases |items|
  {
    if items != [] {
      var n := |items| - 1;
      PickupsEmptyIff(items[..n], r);
      assert forall i :: 0 <= i < n ==> items[..n][i] == items[i];
    }
  }

  // ---- NPCs -----------------------------------------------------------------

  /** `CheckNPCClose`: the first NPC hit by the player's rectangle extended by 40. */
  function NpcInReach(w: World): Option<nat> {
    match First(Hits(w, PlayerRect(w).Extended(NpcReach)), {Object.NPC})
    case None => None
    case Some(h) => Some(h.Index)
  }

  /** The NPC in reach is the lowest-positioned NPC overlapping the extended rectangle. */
  lemma NpcInReachFirst(w: World)
    ensures var r := PlayerRect(w).Extended(NpcReach);
            var n := NpcInReach(w);
            (n.None? <==> forall i :: 0 <= i < |w.NPCs| ==> !w.NPCs[i].Rectangle().Intersects(r)) &&
            (n.Some? ==> LowestHit(NpcRects(w), r, n.value))
  {
    FirstNpc(w, PlayerRect(w).Extended(NpcReach));
  }

  /** An NPC the player itself overlaps is always in reach. */
  lemma OverlappedNpcInReach(w: World, i: nat)
    requires i < |w.NPCs| && w.NPCs[i].Rectangle().Intersects(PlayerRect(w))
    ensures NpcInReach(w).Some? && NpcInReach(w).value <= i
  {
    IntersectsSymmetric(w.NPCs[i].Rectangle(), PlayerRect(w));
    ExtendedKeepsIntersections(PlayerRect(w), w.NPCs[i].Rectangle(), NpcReach);
    IntersectsSymmetric(w.NPCs[i].Rectangle(), PlayerRect(w).Extended(NpcReach));
    NpcInReachFirst(w);
  }

  // ---- Reset ----------------------------------------------------------------

  /** `Reset`: back to the spawn point with full health, no dialog, no bullets and tick 0. */
  function Reset(w: World): (v: World)
    ensures v.Player.Base.Origin == w.Spawn && v.Player.Health == Players.DefaultHealth
    ensures v.ActiveNPC.None? && v.EnemyBullets == [] && v.Tick == 0
    ensures v.Items == w.Items && v.Player.Inventory == w.Player.Inventory
    ensures v.Player.Base.Width == w.Player.Base.Width && v.Player.Base.Height == w.Player.Base.Height
  {
    w.(Player := w.Player.(Base := w.Player.Base.MoveTo(w.Spawn), Health := Players.DefaultHealth),
       ActiveNPC := None, EnemyBullets := [], Tick := 0)
  }
}
