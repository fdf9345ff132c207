/**
 * `Engine.Update`: one tick of the game. The dialog sub-mode, the pause,
 * reset, win and death gates, then the physics steps in their fixed order,
 * the snapshot after an item pickup and the NPC activation.
 */
module Ticks {
  import opened Geometry
  import opened Wrappers
  import Items
  import Players
  import Dialogs
  import K = Input
  import opened Worlds
  import opened Steps

  /**
   * What a tick cannot compute itself: the back-end of each NPC's dialog
   * (by NPC position), the rune a key types, and the snapshot write, which
   * gives an error message or nothing.
   */
  datatype Env = Env(
    Greeting: (nat, Dialogs.State) -> Dialogs.State,
    Feed: (nat, Dialogs.State, string) -> Dialogs.State,
    Rune: K.Key -> char,
    Persist: World -> Option<string>)

  /** Where an NPC puts the item it gives, relative to its own origin. */
  const GiftOffset: Vector := Vector(64.0, 32.0)

  /** The new world and the error `Update` returns, if any. */
  datatype Outcome = Outcome(Next: World, Error: Option<string>)

  // ---- Dialog mode ----------------------------------------------------------

  /** The linked item of NPC `n` placed next to it; nothing else moves. */
  function PlaceGift(w: World, n: nat): (v: World)
    requires Valid(w) && n < |w.NPCs|
    ensures Valid(v) && v == w.(Items := v.Items) && |v.Items| == |w.Items|
    ensures var link := w.NPCs[n].LinkedItem.value;
            v.Items[link].Base.Origin == w.NPCs[n].Base.Origin.Add(GiftOffset)
    ensures forall i :: 0 <= i < |w.Items| ==> v.Items[i].(Base := w.Items[i].Base) == w.Items[i]
  {
    var link := w.NPCs[n].LinkedItem.value;
    var it := w.Items[link];
    w.(Items := w.Items[link := it.(Base := it.Base.MoveTo(w.NPCs[n].Base.Origin.Add(GiftOffset)))])
  }

  /** The first newly pressed key, handled in an unfinished dialog with NPC `n`. */
  function DialogKey(w: World, n: nat, k: K.Key, env: Env): (v: World)
    requires Valid(w) && n < |w.NPCs|
    ensures Valid(v) && v == w.(Dialogs := v.Dialogs, Control := v.Control)
    ensures |v.Dialogs| == |w.Dialogs| && forall j :: 0 <= j < |w.Dialogs| && j != n ==> v.Dialogs[j] == w.Dialogs[j]
    ensures k != K.Enter ==> v.Dialogs == w.Dialogs
  {
    var c := w.Control;
    match k
    case ArrowUp => w.(Control := c.(Scroll := c.Scroll - 1))
    case ArrowDown => w.(Control := c.(Scroll := c.Scroll + 1))
    case Backspace =>
      if |c.InputBuffer| > 0 then w.(Control := c.(InputBuffer := c.InputBuffer[..|c.InputBuffer| - 1])) else w
    case Enter =>
      w.(Dialogs := w.Dialogs[n := env.Feed(n, w.Dialogs[n], c.InputBuffer)], Control := c.(InputBuffer := []))
    case _ => w.(Control := c.(InputBuffer := c.InputBuffer + [env.Rune(k)]))
  }

  /**
   * A tick while an NPC dialog is open: no physics runs, so the player, the
   * NPCs, the bullets and the flags stay, and items only move.
   */
  function DialogTick(w: World, inp: K.Input, env: Env): (v: World)
    requires Valid(w) && w.ActiveNPC.Some?
    ensures Valid(v) && Progress(v, w)
    ensures v.Player == w.Player && v.NPCs == w.NPCs && v.EnemyBullets == w.EnemyBullets
    ensures v.Paused == w.Paused && v.IsWin == w.IsWin && v.Tick == w.Tick
  {
    var n := w.ActiveNPC.value;
    if inp.IsKeyNewlyPressed(K.Escape) then
      w.(ActiveNPC := None, Control := w.Control.(InputBuffer := []))
    else
      var w1 := if w.Dialogs[n].GaveItem then PlaceGift(w, n) else w;
      var pk := inp.JustPressedKeys();
      if |pk| > 0 && !w1.Dialogs[n].Finished then DialogKey(w1, n, pk[0], env) else w1
  }

  // ---- The tick -------------------------------------------------------------

  /** The important items not yet collected (`lo.Filter` in the source). */
  function Outstanding(items: seq<Items.Item>): seq<Items.Item>
    decreases |items|
  {
    if items == [] then []
    else
      var n := |items| - 1;
      Outstanding(items[..n]) + (if !items[n].Collected && items[n].Important then [items[n]] else [])
  }

  /** The level is won once every important item is collected. */
  predicate AllImportantCollected(items: seq<Items.Item>) {
    forall i :: 0 <= i < |items| ==> items[i].Collected || !items[i].Important
  }

  /** The world just before items are collected, to tell whether the pickup found anything. */
  function BeforePickup(w: World, inp: K.Input): (v: World)
    ensures Keeps(v, w)
  {
    var w1 := ProcessPlayerInput(w, inp);
    InputKeeps(w, inp);
    var m1 := MovePlayer(w1, Vector(w1.Player.Speed.X, 0.0));
    var w2 := AlignX(m1);
    AlignXKeeps(m1);
    var m2 := MovePlayer(w2, Vector(0.0, w2.Player.Speed.Y));
    var w3 := AlignY(m2);
    AlignYKeeps(m2);
    PortalsKeep(w3);
    var w4 := CheckPortals(w3);
    SpikesKeep(w4);
    var w5 := CheckSpikes(w4);
    BulletsKeep(w5);
    CheckEnemyBullets(w5)
  }

  /**
   * The physics part of a tick, from input to the collection of items: the
   * frame stays, collected items stay collected, the inventory only grows.
   */
  function Physics(w: World, inp: K.Input): (v: World)
    ensures SameFrame(v, w) && Progress(v, w)
  {
    var pre := BeforePickup(w, inp);
    CollectedKeepsFrame(pre);
    CollectedIsProgress(pre);
    Collected(pre)
  }

  /**
   * A tick past the gates: physics, the snapshot after a pickup, then the NPC
   * activation. An error comes only from the snapshot written after a
   * pickup, with the snapshot's own message prefixed.
   */
  function Simulate(w: World, inp: K.Input, env: Env): (o: Outcome)
    requires Valid(w)
    ensures Valid(o.Next) && Progress(o.Next, w)
    ensures o.Next.Tick == w.Tick && o.Next.Paused == w.Paused && o.Next.IsWin == w.IsWin
    ensures o.Next.Player == Physics(w, inp).Player && o.Next.Items == Physics(w, inp).Items
    ensures o.Error.Some? ==>
              |o.Next.Player.Inventory| > |w.Player.Inventory| && env.Persist(o.Next).Some? &&
              o.Error == Some("collecting items: " + env.Persist(o.Next).value)
  {
    var pre := BeforePickup(w, inp);
    var v := Physics(w, inp);
    CollectedEffect(pre);
    var err := if Pickups(pre.Items, PlayerRect(pre)) != [] then env.Persist(v) else None;
    if err.Some? then Outcome(v, Some("collecting items: " + err.value))
    else Outcome(Talk(v, inp, env), None)
  }

  /** E opens the dialog of the NPC in reach, with a fresh greeting; only the dialog fields change. */
  function Talk(v: World, inp: K.Input, env: Env): (u: World)
    requires Valid(v)
    ensures Valid(u) && u == v.(ActiveNPC := u.ActiveNPC, Dialogs := u.Dialogs)
  {
    match NpcInReach(v)
    case Some(n) =>
      if inp.IsKeyNewlyPressed(K.E) then
        NpcInReachFirst(v);
        v.(ActiveNPC := Some(n), Dialogs := v.Dialogs[n := env.Greeting(n, v.Dialogs[n])])
      else v
    case None => v
  }

  /**
   * The gates after the pause: R resets, a level without outstanding
   * important items is won, a dead player is frozen, otherwise `Simulate`.
   */
  function Gates(w: World, inp: K.Input, env: Env): (o: Outcome)
    requires Valid(w)
    ensures Valid(o.Next) && Progress(o.Next, w) && o.Next.Paused == w.Paused
    ensures !inp.IsKeyNewlyPressed(K.R) && |Outstanding(w.Items)| > 0 && !w.Player.IsDead() ==>
              o.Next.Player == Physics(w, inp).Player && o.Next.Items == Physics(w, inp).Items
    ensures o.Next.Tick == w.Tick || (o.Next.Tick == 0 && inp.IsKeyNewlyPressed(K.R))
    ensures o.Error.Some? ==>
              |o.Next.Player.Inventory| > |w.Player.Inventory| && env.Persist(o.Next).Some? &&
              o.Error == Some("collecting items: " + env.Persist(o.Next).value)
  {
    if inp.IsKeyNewlyPressed(K.R) then Outcome(Reset(w), None)
    else if |Outstanding(w.Items)| == 0 then Outcome(w.(IsWin := true), None)
    else if w.Player.IsDead() then Outcome(w, None)
    else Simulate(w, inp, env)
  }

  /** `Engine.Update`. */
  function Update(w0: World, inp: K.Input, env: Env): Outcome
    requires Valid(w0)
  {
    var w := w0.(Tick := w0.Tick + 1);
    if w.ActiveNPC.Some? then Outcome(DialogTick(w, inp, env), None)
    else if w.Paused && !inp.IsKeyNewlyPressed(K.P) then Outcome(w, None)
    // P unpauses a paused game, and pausing a running one zeroes the speed.
    else if w.Paused then Gates(w.(Paused := false), inp, env)
    else if inp.IsKeyNewlyPressed(K.P) then Gates(w.(Paused := true, Player := w.Player.(Speed := Zero)), inp, env)
    else Gates(w, inp, env)
  }

  // ---- What the physics steps keep ------------------------------------------

  /** The parts of the world physics never changes, and the item count. */
  predicate SameFrame(v: World, w: World) {
    v.NPCs == w.NPCs && v.Dialogs == w.Dialogs && |v.Items| == |w.Items| && v.ActiveNPC == w.ActiveNPC &&
    v.Tiles == w.Tiles && v.Spawn == w.Spawn && v.Paused == w.Paused && v.Tick == w.Tick &&
    v.IsWin == w.IsWin && v.Control == w.Control
  }

  /** Every collected item stays collected, and the inventory only grows at its end. */
  predicate Progress(v: World, w: World) {
    |v.Items| == |w.Items| &&
    (forall i :: 0 <= i < |w.Items| && w.Items[i].Collected ==> v.Items[i].Collected) &&
    |w.Player.Inventory| <= |v.Player.Inventory| && v.Player.Inventory[..|w.Player.Inventory|] == w.Player.Inventory
  }

  /** A step that changes neither the frame nor the items nor the inventory. */
  predicate Keeps(v: World, w: World) {
    SameFrame(v, w) && v.Items == w.Items && v.Player.Inventory == w.Player.Inventory
  }

  lemma InputKeeps(w: World, inp: K.Input)
    ensures Keeps(ProcessPlayerInput(w, inp), w)
  {
  }

  lemma AlignXKeeps(w: World)
    ensures Keeps(AlignX(w), w)
  {
  }

  lemma AlignYKeeps(w: World)
    ensures Keeps(AlignY(w), w)
  {
  }

  lemma PortalsKeep(w: World)
    ensures Keeps(CheckPortals(w), w)
  {
    CheckPortalsEffect(w);
  }

  lemma SpikesKeep(w: World)
    ensures Keeps(CheckSpikes(w), w)
  {
    CheckSpikesEffect(w);
  }

  lemma BulletsKeep(w: World)
    ensures Keeps(CheckEnemyBullets(w), w)
  {
    CheckEnemyBulletsEffect(w);
  }

  lemma CollectedKeepsFrame(w: World)
    ensures SameFrame(Collected(w), w)
  {
    CollectedEffect(w);
  }

  /** Item pickup is progress: collected flags and the inventory only grow. */
  lemma CollectedIsProgress(w: World)
    ensures Progress(Collected(w), w)
  {
    CollectedEffect(w);
    forall i | 0 <= i < |w.Items| && w.Items[i].Collected ensures Collected(w).Items[i].Collected {
      MarkCollectedAt(w.Items, PlayerRect(w), i);
    }
    var inv := w.Player.Inventory;
    assert (inv + Pickups(w.Items, PlayerRect(w)))[..|inv|] == inv;
  }

  // ---- Properties of a tick -------------------------------------------------

  /** Every tick keeps the world valid and is progress: collected items stay collected, the inventory only grows. */
  lemma UpdateKeepsValid(w: World, inp: K.Input, env: Env)
    requires Valid(w)
    ensures Valid(Update(w, inp, env).Next) && Progress(Update(w, inp, env).Next, w)
  {
  }

  /** The tick counter advances on every tick, in every mode, except that a reset sets it to 0. */
  lemma UpdateAdvancesTick(w: World, inp: K.Input, env: Env)
    requires Valid(w)
    ensures var v := Update(w, inp, env).Next;
            v.Tick == w.Tick + 1 || (v.Tick == 0 && inp.IsKeyNewlyPressed(K.R))
  {
  }

  /**
   * In dialog mode only the dialog moves: the player, the pause flag and the
   * win flag are untouched. Escape closes the dialog and empties the input.
   */
  lemma DialogModeHasNoPhysics(w: World, inp: K.Input, env: Env)
    requires Valid(w) && w.ActiveNPC.Some?
    ensures var o := Update(w, inp, env);
            o.Error.None? && o.Next.Player == w.Player && o.Next.Paused == w.Paused && o.Next.IsWin == w.IsWin &&
            o.Next.NPCs == w.NPCs && o.Next.EnemyBullets == w.EnemyBullets && o.Next.Tick == w.Tick + 1
    ensures inp.IsKeyNewlyPressed(K.Escape) ==>
              Update(w, inp, env).Next == w.(Tick := w.Tick + 1, ActiveNPC := None, Control := w.Control.(InputBuffer := []))
  {
  }

  /** Only the first newly pressed key counts, and only while the dialog is not finished. */
  lemma DialogKeys(w: World, inp: K.Input, env: Env)
    requires Valid(w) && w.ActiveNPC.Some? && !inp.IsKeyNewlyPressed(K.Escape)
    ensures var n := w.ActiveNPC.value;
            var v := Update(w, inp, env).Next;
            var g := if w.Dialogs[n].GaveItem then PlaceGift(w.(Tick := w.Tick + 1), n) else w.(Tick := w.Tick + 1);
            (inp.JustPressed == [] || w.Dialogs[n].Finished ==> v == g) &&
            (inp.JustPressed != [] && !w.Dialogs[n].Finished ==>
               var c := w.Control;
               match inp.JustPressed[0]
               case Enter => v.Dialogs[n] == env.Feed(n, w.Dialogs[n], c.InputBuffer) && v.Control.InputBuffer == []
               case Backspace => v.Control.InputBuffer == (if c.InputBuffer == [] then [] else c.InputBuffer[..|c.InputBuffer| - 1])
               case ArrowUp => v.Control == c.(Scroll := c.Scroll - 1)
               case ArrowDown => v.Control == c.(Scroll := c.Scroll + 1)
               case _ => v.Control.InputBuffer == c.InputBuffer + [env.Rune(inp.JustPressed[0])] && v.Dialogs == w.Dialogs)
  {
  }

  /** A dialog that gave its item keeps the linked item next to the NPC. */
  lemma GiftPlacedNextToNpc(w: World, inp: K.Input, env: Env)
    requires Valid(w) && w.ActiveNPC.Some? && !inp.IsKeyNewlyPressed(K.Escape)
    requires w.Dialogs[w.ActiveNPC.value].GaveItem
    ensures var n := w.ActiveNPC.value;
            var link := w.NPCs[n].LinkedItem.value;
            Update(w, inp, env).Next.Items[link].Base.Origin == w.NPCs[n].Base.Origin.Add(GiftOffset)
  {
  }

  /** Paused without P: only the tick counter moves. */
  lemma PausedFreezes(w: World, inp: K.Input, env: Env)
    requires Valid(w) && w.ActiveNPC.None? && w.Paused && !inp.IsKeyNewlyPressed(K.P)
    ensures Update(w, inp, env) == Outcome(w.(Tick := w.Tick + 1), None)
  {
  }

  /** A running game outside dialogs, without P, goes straight to the gates. */
  lemma RunningTick(w: World, inp: K.Input, env: Env)
    requires Valid(w) && w.ActiveNPC.None? && !w.Paused && !inp.IsKeyNewlyPressed(K.P)
    ensures Update(w, inp, env) == Gates(w.(Tick := w.Tick + 1), inp, env)
  {
  }

  /** With a dialog open the tick is the dialog tick. */
  lemma InDialog(w: World, inp: K.Input, env: Env)
    requires Valid(w) && w.ActiveNPC.Some?
    ensures Update(w, inp, env) == Outcome(DialogTick(w.(Tick := w.Tick + 1), inp, env), None)
  {
  }

  /** P in a paused game unpauses it, and the tick goes on to the gates. */
  lemma Unpausing(w: World, inp: K.Input, env: Env)
    requires Valid(w) && w.ActiveNPC.None? && w.Paused && inp.IsKeyNewlyPressed(K.P)
    ensures Update(w, inp, env) == Gates(w.(Tick := w.Tick + 1).(Paused := false), inp, env)
  {
  }

  /** P in a running game pauses it and zeroes the speed, and the tick goes on to the gates. */
  lemma Pausing(w: World, inp: K.Input, env: Env)
    requires Valid(w) && w.ActiveNPC.None? && !w.Paused && inp.IsKeyNewlyPressed(K.P)
    ensures var w' := w.(Tick := w.Tick + 1);
            Update(w, inp, env) == Gates(w'.(Paused := true, Player := w'.Player.(Speed := Zero)), inp, env)
  {
    var w' := w.(Tick := w.Tick + 1);
    assert w'.ActiveNPC.None? && !w'.Paused;
  }

  /** P toggles the pause outside dialogs; pausing zeroes the speed before the tick goes on. */
  lemma PToggles(w: World, inp: K.Input, env: Env)
    requires Valid(w) && w.ActiveNPC.None? && inp.IsKeyNewlyPressed(K.P)
    ensures Update(w, inp, env).Next.Paused == !w.Paused
  {
  }

  /** R resets the level: spawn point, full health, no dialog, no bullets, tick 0; items and inventory stay. */
  lemma ResetKeepsItems(w: World, inp: K.Input, env: Env)
    requires Valid(w) && w.ActiveNPC.None? && !(w.Paused && !inp.IsKeyNewlyPressed(K.P))
    requires inp.IsKeyNewlyPressed(K.R)
    ensures var o := Update(w, inp, env);
            o.Error.None? && o.Next.Items == w.Items && o.Next.Player.Inventory == w.Player.Inventory &&
            o.Next.Player.Base.Origin == w.Spawn && o.Next.Player.Health == Players.DefaultHealth &&
            o.Next.ActiveNPC.None? && o.Next.EnemyBullets == [] && o.Next.Tick == 0
  {
  }

  lemma {:induction false} OutstandingEmptyIff(items: seq<Items.Item>)
    ensures |Outstanding(items)| == 0 <==> AllImportantCollected(items)
    decreases |items|
  {
    if items != [] {
      var n := |items| - 1;
      OutstandingEmptyIff(items[..n]);
      assert forall i :: 0 <= i < n ==> items[..n][i] == items[i];
    }
  }

  /**
   * Past the pause and reset gates, the level is won exactly when every
   * important item is collected, and winning freezes everything else.
   */
  lemma WinIff(w: World, inp: K.Input, env: Env)
    requires Valid(w) && w.ActiveNPC.None? && !w.Paused && !inp.IsKeyNewlyPressed(K.P) && !inp.IsKeyNewlyPressed(K.R)
    ensures var o := Update(w, inp, env);
            (AllImportantCollected(w.Items) ==> o == Outcome(w.(Tick := w.Tick + 1, IsWin := true), None)) &&
            (!AllImportantCollected(w.Items) ==> o.Next.IsWin == w.IsWin)
  {
    OutstandingEmptyIff(w.Items);
  }

  /** A dead player is frozen: no physics runs. */
  lemma DeadIsFrozen(w: World, inp: K.Input, env: Env)
    requires Valid(w) && w.ActiveNPC.None? && !w.Paused && !inp.IsKeyNewlyPressed(K.P) && !inp.IsKeyNewlyPressed(K.R)
    requires !AllImportantCollected(w.Items) && w.Player.IsDead()
    ensures Update(w, inp, env) == Outcome(w.(Tick := w.Tick + 1), None)
  {
    OutstandingEmptyIff(w.Items);
  }

  /** A live player in an unwon level gets the physics, then the snapshot and NPC steps. */
  lemma AliveSimulates(w: World, inp: K.Input, env: Env)
    requires Valid(w) && w.ActiveNPC.None? && !w.Paused && !inp.IsKeyNewlyPressed(K.P) && !inp.IsKeyNewlyPressed(K.R)
    requires !AllImportantCollected(w.Items) && !w.Player.IsDead()
    ensures Update(w, inp, env) == Simulate(w.(Tick := w.Tick + 1), inp, env)
  {
    RunningTick(w, inp, env);
    OutstandingEmptyIff(w.Items);
  }

  /**
   * An error comes only from the snapshot written after a pickup: the message
   * is the snapshot's own, prefixed, and the inventory has grown.
   */
  lemma ErrorOnlyAfterPickup(w: World, inp: K.Input, env: Env)
    requires Valid(w)
    requires Update(w, inp, env).Error.Some?
    ensures var o := Update(w, inp, env);
            |o.Next.Player.Inventory| > |w.Player.Inventory| &&
            exists msg :: env.Persist(o.Next) == Some(msg) && o.Error == Some("collecting items: " + msg)
  {
    var o := Update(w, inp, env);
    assert env.Persist(o.Next) == Some(env.Persist(o.Next).value);
  }

  /** E next to an NPC opens its dialog with a fresh greeting; without an NPC in reach the physics result stands. */
  lemma TalkOpensDialog(w: World, inp: K.Input, env: Env)
    requires Valid(w) && inp.IsKeyNewlyPressed(K.E)
    requires Simulate(w, inp, env).Error.None?
    ensures var o := Simulate(w, inp, env);
            var v := Physics(w, inp);
            (NpcInReach(v).None? ==> o.Next == v) &&
            (NpcInReach(v).Some? ==>
               var n := NpcInReach(v).value;
               n < |v.Dialogs| && o.Next == v.(ActiveNPC := Some(n), Dialogs := v.Dialogs[n := env.Greeting(n, v.Dialogs[n])]))
  {
    var v := Physics(w, inp);
    NpcInReachFirst(v);
  }
}
