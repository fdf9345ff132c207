/**
 * The `Engine` object: the world's slices and flags as fields that `Update`
 * and its helpers change in place, one loop over a collision result at a
 * time. Every method is proved against the function of the world that
 * states its effect, so the properties proved about those functions hold
 * of the object.
 */
module Engines {
  import opened Geometry
  import opened Wrappers
  import Object
  import Tiles
  import Items
  import Portals
  import Damage
  import Npcs
  import Machines
  import Players
  import Physics
  import Dialogs
  import K = Input
  import opened Worlds
  import Steps
  import Ticks
  import Hex
  import Levels
  import opened Bytes

  /** Why `ValidateChecksum` rejects: the digest could not be computed, or it differs. */
  datatype ChecksumError = ComputeError(message: string) | InvalidChecksum

  /**
   * `Checksum`: the SHA-256 digest of the marshalled engine in lowercase hex.
   * `digest` stands for marshalling plus hashing; it fails with the
   * marshaller's message, and hashing into memory never fails.
   */
  function Checksum(w: World, digest: World -> Result<seq<Byte>, string>): (r: Result<string, string>)
    ensures r.Success? <==> digest(w).Success?
    ensures r.Success? ==> Hex.Decode(r.value) == Success(digest(w).value)
    ensures r.Failure? ==> r.error == "marshalling engine: " + digest(w).error
  {
    match digest(w)
    case Failure(e) => Failure("marshalling engine: " + e)
    case Success(b) => Hex.DecodeEncode(b); Success(Hex.Encode(b))
  }

  /** The engine's own checksum always validates, whenever the digest can be taken. */
  lemma OwnChecksumValidates(w: World, digest: World -> Result<seq<Byte>, string>)
    requires digest(w).Success?
    ensures Checksum(w, digest).Success?
    ensures ValidateChecksum(w, Checksum(w, digest).value, digest).None?
  {
  }

  /**
   * A checksum validates exactly when it is the lowercase hex form of the
   * digest: a string with an upper-case digit is rejected even when it
   * spells the same bytes.
   */
  lemma ValidatesIffLowercaseHexOfDigest(w: World, checksum: string, digest: World -> Result<seq<Byte>, string>)
    ensures ValidateChecksum(w, checksum, digest).None? <==>
              digest(w).Success? && Hex.Decode(checksum) == Success(digest(w).value) &&
              forall i :: 0 <= i < |checksum| ==> Hex.IsLowerDigit(checksum[i])
  {
    if digest(w).Success? {
      var b := digest(w).value;
      Hex.EncodeLowercase(b);
      if Hex.Decode(checksum) == Success(b) && forall i :: 0 <= i < |checksum| ==> Hex.IsLowerDigit(checksum[i]) {
        Hex.DecodeSucceedsIff(checksum);
        Hex.EncodeDecode(checksum);
      }
    }
  }

  /**
   * `ValidateChecksum`: a digest that cannot be computed is reported with
   * its message, a different string is `ErrInvalidChecksum`, and the
   * engine's own checksum passes.
   */
  function ValidateChecksum(w: World, checksum: string, digest: World -> Result<seq<Byte>, string>): (r: Option<ChecksumError>)
    ensures r == Some(InvalidChecksum) <==> Checksum(w, digest).Success? && Checksum(w, digest).value != checksum
    ensures r.Some? && r.value.ComputeError? <==> digest(w).Failure?
    ensures r.Some? && r.value.ComputeError? ==>
              r.value.message == "getting correct checksum: marshalling engine: " + digest(w).error
  {
    match Checksum(w, digest)
    case Failure(e) => Some(ComputeError("getting correct checksum: " + e))
    case Success(c) => if c != checksum then Some(InvalidChecksum) else None
  }

  // ---- Collision loops ------------------------------------------------------

  /** `collideGeneric`: appends to `result` the hits of the `rects` that intersect `r`, in order. */
  method CollideGeneric(result: seq<Hit>, kind: Object.Type, rects: seq<Rectangle>, r: Rectangle)
    returns (res: seq<Hit>)
    ensures res == result + LayerHits(kind, rects, r)
  {
    res := result;
    var i := 0;
    while i < |rects|
      invariant i <= |rects|
      invariant res == result + LayerHits(kind, rects[..i], r)
    {
      assert rects[..i + 1][..i] == rects[..i];
      if rects[i].Intersects(r) {
        res := res + [Hit(kind, i)];
      }
      i := i + 1;
    }
    assert rects[..i] == rects;
  }

  /** The objects whose rectangle intersects `r`, in slice order. */
  function Intersecting<O>(objects: seq<O>, rect: O -> Rectangle, r: Rectangle): seq<O>
    decreases |objects|
  {
    if objects == [] then []
    else
      var n := |objects| - 1;
      Intersecting(objects[..n], rect, r) + (if rect(objects[n]).Intersects(r) then [objects[n]] else [])
  }

  /** `Collide`: the objects that intersect `r`. */
  method Collide<O>(r: Rectangle, objects: seq<O>, rect: O -> Rectangle) returns (res: seq<O>)
    ensures res == Intersecting(objects, rect, r)
  {
    res := [];
    var i := 0;
    while i < |objects|
      invariant i <= |objects|
      invariant res == Intersecting(objects[..i], rect, r)
    {
      assert objects[..i + 1][..i] == objects[..i];
      if rect(objects[i]).Intersects(r) {
        res := res + [objects[i]];
      }
      i := i + 1;
    }
    assert objects[..i] == objects;
  }

  /**
   * `Collide` picks out the objects at the positions of the layer's hits, so
   * its result is a subsequence of its input in input order.
   */
  lemma {:induction false} CollideIsOrderedSubsequence<O>(objects: seq<O>, rect: O -> Rectangle, r: Rectangle, kind: Object.Type)
    ensures var hs := LayerHits(kind, seq(|objects|, i requires 0 <= i < |objects| => rect(objects[i])), r);
            var res := Intersecting(objects, rect, r);
            |res| == |hs| && Ascending(hs) &&
            forall j :: 0 <= j < |hs| ==> hs[j].Index < |objects| && res[j] == objects[hs[j].Index]
    decreases |objects|
  {
    var rects := seq(|objects|, i requires 0 <= i < |objects| => rect(objects[i]));
    LayerHitsSpec(kind, rects, r);
    if objects != [] {
      var n := |objects| - 1;
      var pre := seq(|objects[..n]|, i requires 0 <= i < |objects[..n]| => rect(objects[..n][i]));
      assert pre == rects[..n];
      CollideIsOrderedSubsequence(objects[..n], rect, r, kind);
    }
  }

  /** One more iteration of a loop over a collision result is one more step of the fold. */
  lemma FoldOneMore(w0: World, hs: seq<Hit>, i: nat, step: (World, Hit) -> World, before: World, after: World)
    requires i < |hs| && before == Fold(w0, hs[..i], step) && after == step(before, hs[i])
    ensures after == Fold(w0, hs[..i + 1], step)
  {
    assert hs[..i + 1][..i] == hs[..i];
  }

  /** The world `Reset` leaves, written field by field. */
  lemma ResetShape(w: World, v: World)
    requires v == World(w.Tiles, w.BackgroundImages,
                        w.Player.(Base := w.Player.Base.MoveTo(w.Spawn), Health := Players.DefaultHealth),
                        w.Items, w.Portals, w.Spikes, w.InvWalls, w.NPCs, w.Arcades, [], w.Dialogs, w.Spawn,
                        None, w.Control, w.Paused, 0, w.Level, w.IsWin)
    ensures v == Steps.Reset(w)
  {
  }

  class Engine {
    var tiles: seq<Tiles.StaticTile>
    var backgroundImages: seq<Tiles.BackgroundImage>
    var player: Players.PlayerState
    var items: seq<Items.Item>
    var portals: seq<Portals.Portal>
    var spikes: seq<Damage.Spike>
    var invWalls: seq<Tiles.InvWall>
    var npcs: seq<Npcs.Npc>
    var arcades: seq<Machines.Machine>
    var enemyBullets: seq<Damage.Bullet>
    var dialogs: seq<Dialogs.State>
    var spawn: Point
    var activeNPC: Option<nat>
    var control: DialogControl
    var paused: bool
    var tick: int
    var level: string
    var isWin: bool

    /** The world the fields hold. */
    function Abs(): World
      reads this
    {
      World(tiles, backgroundImages, player, items, portals, spikes, invWalls, npcs, arcades,
            enemyBullets, dialogs, spawn, activeNPC, control, paused, tick, level, isWin)
    }

    /** An engine holding the world `w`. */
    constructor (w: World)
      ensures Abs() == w
    {
      tiles := w.Tiles;
      backgroundImages := w.BackgroundImages;
      player := w.Player;
      items := w.Items;
      portals := w.Portals;
      spikes := w.Spikes;
      invWalls := w.InvWalls;
      npcs := w.NPCs;
      arcades := w.Arcades;
      enemyBullets := w.EnemyBullets;
      dialogs := w.Dialogs;
      spawn := w.Spawn;
      activeNPC := w.ActiveNPC;
      control := w.Control;
      paused := w.Paused;
      tick := w.Tick;
      level := w.Level;
      isWin := w.IsWin;
    }

    // ---- Collisions ---------------------------------------------------------

    /** `Collisions`: every scanned layer in drawing order. */
    method Collisions(r: Rectangle) returns (hs: seq<Hit>)
      ensures hs == Hits(Abs(), r)
    {
      var w := Abs();
      hs := CollideGeneric([], Object.BackgroundImage, BackgroundRects(w), r);
      assert hs == LayerHits(Object.BackgroundImage, BackgroundRects(w), r);
      hs := CollideGeneric(hs, Object.StaticTile, TileRects(w), r);
      hs := CollideGeneric(hs, Object.Item, ItemRects(w), r);
      hs := CollideGeneric(hs, Object.Portal, PortalRects(w), r);
      hs := CollideGeneric(hs, Object.Spike, SpikeRects(w), r);
      hs := CollideGeneric(hs, Object.NPC, NpcRects(w), r);
      hs := CollideGeneric(hs, Object.Arcade, ArcadeRects(w), r);
      hs := CollideGeneric(hs, Object.Player, [w.Player.Rectangle()], r);
      hs := CollideGeneric(hs, Object.EnemyBullet, BulletRects(w), r);
    }

    /** `PlayerRect` of the current world. */
    function PlayerRect(): (r: Rectangle)
      reads this
      ensures r == Steps.PlayerRect(Abs())
    {
      player.Rectangle()
    }

    // ---- Movement -----------------------------------------------------------

    /** `Player.Move`. */
    method MovePlayer(d: Vector)
      modifies this
      ensures Abs() == Steps.MovePlayer(old(Abs()), d)
    {
      player := player.(Base := player.Base.Move(d));
    }

    /** `ProcessPlayerInput`. */
    method ProcessPlayerInput(inp: K.Input)
      modifies this
      ensures Abs() == Steps.ProcessPlayerInput(old(Abs()), inp)
    {
      var p := player;
      if p.Ground.OnGround {
        p := p.(Acceleration := p.Acceleration.(Y := 0.0));
      } else {
        p := p.(Acceleration := p.Acceleration.(Y := Physics.GravityAcceleration));
      }
      if (inp.IsKeyPressed(K.Space) || inp.IsKeyPressed(K.W)) && p.Ground.Coyote {
        p := p.(Speed := p.Speed.(Y := Steps.JumpSpeed));
        p := p.(Ground := p.Ground.ResetCoyote());
      }
      if inp.IsKeyPressed(K.A) {
        p := p.(Speed := p.Speed.(X := -Steps.WalkSpeed), LooksRight := false);
      } else if inp.IsKeyPressed(K.D) {
        p := p.(Speed := p.Speed.(X := Steps.WalkSpeed), LooksRight := true);
      } else {
        p := p.(Speed := p.Speed.(X := 0.0));
      }
      player := p.(Speed := Physics.Accelerated(p.Speed, p.Acceleration));
    }

    /** The first hit of `hs` whose kind is in `ks`, by a loop that stops there. */
    method FirstOf(hs: seq<Hit>, ks: set<Object.Type>) returns (f: Option<Hit>)
      ensures f == Steps.First(hs, ks)
    {
      var i := 0;
      while i < |hs| && hs[i].Kind !in ks
        invariant i <= |hs| && Steps.First(hs[..i], ks).None?
      {
        assert hs[..i + 1] == hs[..i] + [hs[i]];
        Steps.FirstAppend(hs[..i], [hs[i]], ks);
        i := i + 1;
      }
      assert hs == hs[..i] + hs[i..];
      Steps.FirstAppend(hs[..i], hs[i..], ks);
      if i < |hs| {
        f := Some(hs[i]);
      } else {
        assert hs[i..] == [];
        f := None;
      }
    }

    /** `AlignPlayerX`. */
    method AlignPlayerX()
      modifies this
      ensures Abs() == Steps.AlignX(old(Abs()))
    {
      var hs := Collisions(PlayerRect());
      var c := FirstOf(hs, Steps.Blocking);
      if c.Some? {
        var b := HitRect(Abs(), c.value);
        if b.Some? {
          MovePlayer(b.value.PushVectorX(PlayerRect()));
        }
      }
    }

    /** `AlignPlayerY`. */
    method AlignPlayerY()
      modifies this
      ensures Abs() == Steps.AlignY(old(Abs()))
    {
      var hs := Collisions(PlayerRect());
      var c := FirstOf(hs, Steps.Blocking);
      var r := PlayerRect();
      var b := if c.Some? then HitRect(Abs(), c.value) else None;
      var p := player.(Ground := player.Ground.SetOnGround(false, tick));
      if b.Some? {
        var pv := b.value.PushVectorY(r);
        p := p.(Base := p.Base.Move(pv));
        if pv.Y < 0.0 {
          p := p.(Ground := p.Ground.SetOnGround(true, tick));
        } else {
          p := p.(Speed := p.Speed.(Y := 0.0));
        }
      }
      player := p;
    }

    // ---- Per-tick checks ----------------------------------------------------

    /** `CheckPortals`: every overlapping linked portal moves the player in turn. */
    method CheckPortals()
      modifies this
      ensures Abs() == Steps.CheckPortals(old(Abs()))
    {
      ghost var w0 := Abs();
      var hs := Collisions(PlayerRect());
      var i := 0;
      while i < |hs|
        invariant i <= |hs|
        invariant Abs() == Fold(w0, hs[..i], Steps.PortalStep)
      {
        ghost var before := Abs();
        Teleport(hs[i]);
        FoldOneMore(w0, hs, i, Steps.PortalStep, before, Abs());
        i := i + 1;
      }
      assert hs[..i] == hs;
    }

    /** One iteration of `CheckPortals`: a linked portal moves the player to its destination. */
    method Teleport(h: Hit)
      modifies this
      ensures Abs() == Steps.PortalStep(old(Abs()), h)
    {
      if h.Kind == Object.Portal && h.Index < |portals| && portals[h.Index].TeleportTo.Some? {
        player := player.(Base := player.Base.MoveTo(portals[h.Index].TeleportTo.value));
      }
    }

    /** One iteration of `CheckSpikes`: the spike's damage is taken off the health. */
    method Prick(h: Hit)
      modifies this
      ensures Abs() == Steps.SpikeStep(old(Abs()), h)
    {
      if h.Kind == Object.Spike && h.Index < |spikes| {
        player := player.(Health := player.Health - spikes[h.Index].Damage);
      }
    }

    /** `CheckSpikes`: every overlapping spike takes its damage off the health. */
    method CheckSpikes()
      modifies this
      ensures Abs() == Steps.CheckSpikes(old(Abs()))
    {
      ghost var w0 := Abs();
      var hs := Collisions(PlayerRect());
      var i := 0;
      while i < |hs|
        invariant i <= |hs|
        invariant Abs() == Fold(w0, hs[..i], Steps.SpikeStep)
      {
        ghost var before := Abs();
        Prick(hs[i]);
        FoldOneMore(w0, hs, i, Steps.SpikeStep, before, Abs());
        i := i + 1;
      }
      assert hs[..i] == hs;
    }

    /** Whether a collision result holds a static tile, by a loop that stops at the first. */
    method HasTile(cs: seq<Hit>) returns (found: bool)
      ensures found <==> exists h :: h in cs && h.Kind == Object.StaticTile
    {
      found := false;
      var j := 0;
      while j < |cs| && !found
        invariant j <= |cs|
        invariant found <==> exists h :: h in cs[..j] && h.Kind == Object.StaticTile
      {
        assert cs[..j + 1] == cs[..j] + [cs[j]];
        if cs[j].Kind == Object.StaticTile {
          found := true;
        }
        j := j + 1;
      }
      assert !found ==> cs[..j] == cs;
      assert forall h :: h in cs[..j] ==> h in cs;
    }

    /**
     * `CheckEnemyBullets`: the bullets advance and those now on a static tile
     * are dropped; then every overlapping untriggered bullet hurts once.
     */
    method CheckEnemyBullets()
      modifies this
      ensures Abs() == Steps.CheckEnemyBullets(old(Abs()))
    {
      AdvanceBullets();
      var hs := Collisions(PlayerRect());
      TriggerBullets(hs);
    }

    /** The first loop of `CheckEnemyBullets`. */
    method AdvanceBullets()
      modifies this
      ensures Abs() == old(Abs()).(EnemyBullets := Steps.SurvivingBullets(old(tiles), old(enemyBullets)))
    {
      var bullets: seq<Damage.Bullet> := [];
      var i := 0;
      while i < |enemyBullets|
        invariant i <= |enemyBullets|
        invariant bullets == Steps.SurvivingBullets(tiles, enemyBullets[..i])
        invariant Abs() == old(Abs())
      {
        assert enemyBullets[..i + 1][..i] == enemyBullets[..i];
        var b := Steps.Advanced(enemyBullets[i]);
        var cs := Collisions(b.Base.Rectangle());
        TileHitIff(Abs(), b.Base.Rectangle());
        var hit := HasTile(cs);
        if !hit {
          bullets := bullets + [b];
        }
        i := i + 1;
      }
      assert enemyBullets[..i] == enemyBullets;
      enemyBullets := bullets;
    }

    /** One iteration of the second loop: an untriggered bullet hurts once and is marked. */
    method Trigger(h: Hit)
      modifies this
      ensures Abs() == Steps.TriggerStep(old(Abs()), h)
    {
      if h.Kind == Object.EnemyBullet && h.Index < |enemyBullets| && !enemyBullets[h.Index].Triggered {
        var b := enemyBullets[h.Index];
        player := player.(Health := player.Health - b.Damage);
        enemyBullets := enemyBullets[h.Index := b.(Triggered := true)];
      }
    }

    /** The second loop of `CheckEnemyBullets`. */
    method TriggerBullets(hs: seq<Hit>)
      modifies this
      ensures Abs() == Fold(old(Abs()), hs, Steps.TriggerStep)
    {
      ghost var w1 := Abs();
      var i := 0;
      while i < |hs|
        invariant i <= |hs|
        invariant Abs() == Fold(w1, hs[..i], Steps.TriggerStep)
      {
        ghost var before := Abs();
        Trigger(hs[i]);
        FoldOneMore(w1, hs, i, Steps.TriggerStep, before, Abs());
        i := i + 1;
      }
      assert hs[..i] == hs;
    }

    /** One iteration of `CollectItems`: an uncollected item goes into the inventory. */
    method Collect(h: Hit) returns (got: bool)
      modifies this
      ensures Abs() == Steps.CollectStep(old(Abs()), h)
      ensures got <==> |player.Inventory| > |old(player.Inventory)|
      ensures |player.Inventory| >= |old(player.Inventory)|
    {
      got := false;
      if h.Kind == Object.Item && h.Index < |items| && !items[h.Index].Collected {
        var c := Players.CollectedItem(items[h.Index]);
        items := items[h.Index := c];
        player := player.(Inventory := player.Inventory + [c]);
        got := true;
      }
    }

    /**
     * `CollectItems`: every overlapping uncollected item is collected, and a
     * snapshot is written exactly when something was; `persist` stands for
     * making and saving it and gives its error, if any.
     */
    method CollectItems(persist: World -> Option<string>) returns (err: Option<string>)
      modifies this
      ensures Abs() == Steps.Collected(old(Abs()))
      ensures err == if Steps.Pickups(old(items), Steps.PlayerRect(old(Abs()))) != [] then persist(Abs()) else None
    {
      ghost var w0 := Abs();
      var hs := Collisions(PlayerRect());
      var collectedSomething := false;
      var i := 0;
      while i < |hs|
        invariant i <= |hs|
        invariant Abs() == Fold(w0, hs[..i], Steps.CollectStep)
        invariant |player.Inventory| >= |w0.Player.Inventory|
        invariant collectedSomething <==> |player.Inventory| > |w0.Player.Inventory|
      {
        ghost var before := Abs();
        var got := Collect(hs[i]);
        collectedSomething := collectedSomething || got;
        FoldOneMore(w0, hs, i, Steps.CollectStep, before, Abs());
        i := i + 1;
      }
      assert hs[..i] == hs;
      Steps.CollectedEffect(w0);
      err := None;
      if collectedSomething {
        err := persist(Abs());
      }
    }

    /** `CheckNPCClose`: the first NPC near the player, if any. */
    method CheckNPCClose() returns (n: Option<nat>)
      ensures n == Steps.NpcInReach(Abs())
    {
      var hs := Collisions(PlayerRect().Extended(Steps.NpcReach));
      var c := FirstOf(hs, {Object.NPC});
      n := if c.Some? then Some(c.value.Index) else None;
    }

    /** `Reset`. */
    method Reset()
      modifies this
      ensures Abs() == Steps.Reset(old(Abs()))
    {
      ghost var w := Abs();
      player := player.(Base := player.Base.MoveTo(spawn), Health := Players.DefaultHealth);
      activeNPC := None;
      enemyBullets := [];
      tick := 0;
      ResetShape(w, Abs());
    }

    // ---- The tick -----------------------------------------------------------

    /** The gift of NPC `n` moved next to it. */
    method PlaceGift(n: nat)
      requires Valid(Abs()) && n < |npcs|
      modifies this
      ensures Abs() == Ticks.PlaceGift(old(Abs()), n)
    {
      var link := npcs[n].LinkedItem.value;
      var it := items[link];
      items := items[link := it.(Base := it.Base.MoveTo(npcs[n].Base.Origin.Add(Ticks.GiftOffset)))];
    }

    /** The first newly pressed key in an unfinished dialog with NPC `n`. */
    method DialogKey(n: nat, k: K.Key, env: Ticks.Env)
      requires Valid(Abs()) && n < |npcs|
      modifies this
      ensures Abs() == Ticks.DialogKey(old(Abs()), n, k, env)
    {
      match k
      case ArrowUp => control := control.(Scroll := control.Scroll - 1);
      case ArrowDown => control := control.(Scroll := control.Scroll + 1);
      case Backspace =>
        if |control.InputBuffer| > 0 {
          control := control.(InputBuffer := control.InputBuffer[..|control.InputBuffer| - 1]);
        }
      case Enter =>
        dialogs := dialogs[n := env.Feed(n, dialogs[n], control.InputBuffer)];
        control := control.(InputBuffer := []);
      case _ => control := control.(InputBuffer := control.InputBuffer + [env.Rune(k)]);
    }

    /** A tick with an open dialog. */
    method DialogTick(inp: K.Input, env: Ticks.Env)
      requires Valid(Abs()) && activeNPC.Some?
      modifies this
      ensures Abs() == Ticks.DialogTick(old(Abs()), inp, env)
    {
      var n := activeNPC.value;
      if inp.IsKeyNewlyPressed(K.Escape) {
        activeNPC := None;
        control := control.(InputBuffer := []);
        return;
      }
      if dialogs[n].GaveItem {
        PlaceGift(n);
      }
      var pk := inp.JustPressedKeys();
      if |pk| > 0 && !dialogs[n].Finished {
        DialogKey(n, pk[0], env);
      }
    }

    /** The physics steps of a tick, in their fixed order, and the pickup. */
    method Simulate(inp: K.Input, env: Ticks.Env) returns (err: Option<string>)
      requires Valid(Abs())
      modifies this
      ensures Abs() == Ticks.Simulate(old(Abs()), inp, env).Next
      ensures err == Ticks.Simulate(old(Abs()), inp, env).Error
    {
      ghost var w := Abs();
      BeforePickup(inp);
      var e := CollectItems(env.Persist);
      assert Abs() == Ticks.Physics(w, inp);
      assert Ticks.SameFrame(Abs(), w);
      if e.Some? {
        return Some("collecting items: " + e.value);
      }
      Talk(inp, env);
      err := None;
    }

    /** The physics steps of a tick, in their fixed order, up to the pickup. */
    method BeforePickup(inp: K.Input)
      modifies this
      ensures Abs() == Ticks.BeforePickup(old(Abs()), inp)
    {
      ProcessPlayerInput(inp);
      MovePlayer(Vector(player.Speed.X, 0.0));
      AlignPlayerX();
      MovePlayer(Vector(0.0, player.Speed.Y));
      AlignPlayerY();
      CheckPortals();
      CheckSpikes();
      CheckEnemyBullets();
    }

    /** E opens the dialog of the NPC in reach with its greeting. */
    method Talk(inp: K.Input, env: Ticks.Env)
      requires Valid(Abs())
      modifies this
      ensures Abs() == Ticks.Talk(old(Abs()), inp, env)
    {
      var available := CheckNPCClose();
      if available.Some? && inp.IsKeyNewlyPressed(K.E) {
        Steps.NpcInReachFirst(Abs());
        var n := available.value;
        activeNPC := Some(n);
        dialogs := dialogs[n := env.Greeting(n, dialogs[n])];
      }
    }

    /** The gates after the pause: reset, win, death, then the physics. */
    method Gates(inp: K.Input, env: Ticks.Env) returns (err: Option<string>)
      requires Valid(Abs())
      modifies this
      ensures Abs() == Ticks.Gates(old(Abs()), inp, env).Next
      ensures err == Ticks.Gates(old(Abs()), inp, env).Error
    {
      err := None;
      if inp.IsKeyNewlyPressed(K.R) {
        Reset();
        return;
      }
      if |Ticks.Outstanding(items)| == 0 {
        isWin := true;
        return;
      }
      if player.IsDead() {
        return;
      }
      err := Simulate(inp, env);
    }

    /** `Update`: one tick. */
    method Update(inp: K.Input, env: Ticks.Env) returns (err: Option<string>)
      requires Valid(Abs())
      modifies this
      ensures Abs() == Ticks.Update(old(Abs()), inp, env).Next
      ensures err == Ticks.Update(old(Abs()), inp, env).Error
    {
      ghost var w0 := Abs();
      if activeNPC.Some? {
        err := DialogUpdate(inp, env);
      } else if paused && !inp.IsKeyNewlyPressed(K.P) {
        tick := tick + 1;
        err := None;
        Ticks.PausedFreezes(w0, inp, env);
      } else {
        err := Proceed(inp, env);
      }
    }

    /** `Update` with a dialog open. */
    method DialogUpdate(inp: K.Input, env: Ticks.Env) returns (err: Option<string>)
      requires Valid(Abs()) && activeNPC.Some?
      modifies this
      ensures Abs() == Ticks.Update(old(Abs()), inp, env).Next
      ensures err == Ticks.Update(old(Abs()), inp, env).Error
    {
      ghost var w0 := Abs();
      Ticks.InDialog(w0, inp, env);
      tick := tick + 1;
      err := None;
      assert Abs() == w0.(Tick := w0.Tick + 1);
      DialogTick(inp, env);
    }

    /** The part of `Update` after the dialog and the pause check: P toggles the pause, then the gates. */
    method Proceed(inp: K.Input, env: Ticks.Env) returns (err: Option<string>)
      requires Valid(Abs()) && activeNPC.None? && !(paused && !inp.IsKeyNewlyPressed(K.P))
      modifies this
      ensures Abs() == Ticks.Update(old(Abs()), inp, env).Next
      ensures err == Ticks.Update(old(Abs()), inp, env).Error
    {
      if paused {
        ghost var w0 := Abs();
        tick := tick + 1;
        paused := false;
        assert Abs() == w0.(Tick := w0.Tick + 1).(Paused := false);
        err := Gates(inp, env);
        Ticks.Unpausing(w0, inp, env);
      } else {
        err := ProceedRunning(inp, env);
      }
    }

    /** `Proceed` in a running game: P pauses it and zeroes the speed, then the gates. */
    method ProceedRunning(inp: K.Input, env: Ticks.Env) returns (err: Option<string>)
      requires Valid(Abs()) && activeNPC.None? && !paused
      modifies this
      ensures Abs() == Ticks.Update(old(Abs()), inp, env).Next
      ensures err == Ticks.Update(old(Abs()), inp, env).Error
    {
      if inp.IsKeyNewlyPressed(K.P) {
        err := PauseThenGates(inp, env);
      } else {
        ghost var w0 := Abs();
        tick := tick + 1;
        assert Abs() == w0.(Tick := w0.Tick + 1);
        err := Gates(inp, env);
        Ticks.RunningTick(w0, inp, env);
      }
    }

    /** P in a running game: the game pauses with the player's speed zeroed, then the gates. */
    method PauseThenGates(inp: K.Input, env: Ticks.Env) returns (err: Option<string>)
      requires Valid(Abs()) && activeNPC.None? && !paused && inp.IsKeyNewlyPressed(K.P)
      modifies this
      ensures Abs() == Ticks.Update(old(Abs()), inp, env).Next
      ensures err == Ticks.Update(old(Abs()), inp, env).Error
    {
      ghost var w0 := Abs();
      Ticks.Pausing(w0, inp, env);
      ghost var w1 := w0.(Tick := w0.Tick + 1, Paused := true, Player := w0.Player.(Speed := Zero));
      tick := tick + 1;
      paused := true;
      player := player.(Speed := Zero);
      assert Abs() == w1;
      err := Gates(inp, env);
    }

    // ---- Restoring from a snapshot ------------------------------------------

    /** Decoding the snapshot's `items` into the engine; no other field has a JSON key. */
    method ApplySnapshot(s: Levels.SnapshotData)
      requires Levels.Decodes(items, s)
      modifies this
      ensures Abs() == old(Abs()).(Items := Levels.SnapshotItems(old(items), s))
    {
      match s
      case ItemsAbsent =>
      case ItemsNull =>
        items := [];
      case ItemsArray(entries) =>
        items := Levels.DecodeItems(items, entries).value;
    }

    /** The loop of `NewFromSnapshot` that appends every collected item to the inventory, in item order. */
    method CollectInventory()
      modifies this
      ensures Abs() == old(Abs()).(Player := old(player).(Inventory := old(player.Inventory) + Levels.CollectedItems(old(items))))
    {
      var inv := player.Inventory;
      var i := 0;
      while i < |items|
        invariant 0 <= i <= |items|
        invariant inv == player.Inventory + Levels.CollectedItems(items[..i])
      {
        assert items[..i + 1][..i] == items[..i];
        if items[i].Collected {
          inv := inv + [items[i]];
        }
        i := i + 1;
      }
      assert items[..i] == items;
      player := player.(Inventory := inv);
    }
  }

  /** `NewFromSnapshot`: an engine for the built level with the snapshot applied, or the first error. */
  method NewFromSnapshot(level: string, tiles: seq<Tiles.StaticTile>, backgrounds: seq<Tiles.BackgroundImage>,
                         objs: seq<Levels.MapObject>, prov: Levels.Providers, s: Levels.SnapshotData)
    returns (r: Result<Engine, Levels.RestoreError>)
    ensures r.Failure? <==> Levels.NewFromSnapshot(level, tiles, backgrounds, objs, prov, s).Failure?
    ensures r.Failure? ==> r.error == Levels.NewFromSnapshot(level, tiles, backgrounds, objs, prov, s).error
    ensures r.Success? ==> fresh(r.value) && r.value.Abs() == Levels.NewFromSnapshot(level, tiles, backgrounds, objs, prov, s).value
  {
    var built := Levels.New(level, tiles, backgrounds, objs, prov);
    if built.Failure? {
      return Failure(Levels.CreatingEngine(built.error));
    }
    var e := new Engine(built.value);
    if s.Unreadable? {
      return Failure(Levels.ApplyingSnapshot(s.message));
    }
    if s.ItemsArray? && Levels.DecodeItems(e.items, s.entries).Failure? {
      return Failure(Levels.DecodeItems(e.items, s.entries).error);
    }
    e.ApplySnapshot(s);
    e.CollectInventory();
    r := Success(e);
  }
}
