# ctfcup-2024-igra, modelled in Dafny

This project models the deterministic core of a side-scrolling CTF game. The Go engine and the small programs around it are all included.

**Simulation engine** (`internal/...`):
- Rectangle and vector geometry, with open-interval intersection and minimum push vectors.
- The entity records: tiles, items, portals, spikes, bullets, NPCs and arcade machines.
- Player physics, with coyote-time grounding, health and inventory.
- Oscillating platforms, which bounce one tick late.
- The collision query, which scans the entity layers in a fixed order.
- The engine:
  - construction from a list of placed map objects, with its linking errors;
  - restoring from a snapshot;
  - reset;
  - the `Update` tick and its per-tick checks: movement and alignment, portals, spikes, bullets, item pickup and NPC reach;
  - the dialog sub-mode;
  - checksum validation.

**Arcade back-ends:**
- The 64×64 "simple" grid game, which updates an array in place.
- The binary-arcade wire protocol: a length-prefixed key frame, a 4096-byte screen and WIN/LOSE markers.
- The two programs that speak that protocol: the C++ maze (`tasks/maze`) and the Python "brodilka".

**Dialog back-ends:**
- One-shot binaries that are given an answer.
- Interactive binaries that are written one line per answer.

**Puzzle programs:**
- The crackme: a 64-bit wrapping hash checked in four-byte chunks.
- The ROP payload generator: 24 filler bytes, a 29-word chain, zero padding to 1024 bytes, "you win", then lowercase hex. A small gadget interpreter runs the chain against the victim program.

**Scoreboard:** aggregates the teams' snapshots into first collection times, scores, total times and a team ordering.

## How the model is built

Pure code (geometry, entity constructors, key maps, frame layouts, hashes, encodings) becomes datatypes, functions and lemmas. Code that updates state in place keeps that form:
- `Player`, `Physical`, `Platform`, the dialogs, both arcades, the maze and brodilka programs, and the engine are classes with `modifies` clauses.
- The engine's methods are proved against pure step functions of an abstract `World` (modules `Steps` and `Ticks`), and the properties are lemmas about those functions.
- Loops over collision results are folds of one loop step over the hit list.
- Go's map iteration order is an arbitrary choice. `sort.Slice` is modelled as "any sorted permutation".

Where the repository's files disagree with each other (the code is mid-refactor), the model follows the code:
- The tags `StaticTileType`, `PlayerType` and `InvWall` that the engine uses are the `StaticTile`, `Player` and `InvWall` variants of `Object.Type`.
- `Collisions` scans nine layers (collisions.go:12-23). Invisible walls are not among them, so an invisible wall never blocks anything, even though the alignment code filters for it.
- The arcade layer that `Collisions` scans is not a field the engine fills, so in the model it is always empty.
- The push-vector epsilon calls a `Length()` that `Vector` does not define. The model compares `LengthSquared()` with 1e-12, the square of 1e-6.
- `ApplyAcceleration`, which `ProcessPlayerInput` calls, is not defined. The model applies `ApplyAccelerationX` and then `ApplyAccelerationY`.
- A `Vector` assigned to a `*Vector` field is an `Option<Vector>`.
- `arcade.Machine.Type()` returns `Arcade`, not `ArcadeMachine`, and the model keeps that.

Coordinates, speeds and the epsilon are `real`. Scoreboard times are `int` nanoseconds since Go's zero time, with `Sub` saturating and `Duration` addition wrapping at 64 bits, as Go's `time` package does. The crackme hash is arithmetic modulo 2^64.

## Model

| member | source | states |
|---|---|---|
| Geometry.AddCommutes | internal/geometry/vector.go:7-9 | `Add` is componentwise and commutative, with the zero vector as identity |
| Geometry.NegInvolution | internal/geometry/vector.go:7-13 | `Neg` is an involution and `v.Add(v.Neg())` is the zero vector |
| Geometry.LengthSquaredNonNegative | internal/geometry/vector.go:15-17 | a squared length is never negative; the zero vector's is zero |
| Geometry.MultiplyProperties | internal/geometry/vector.go:11-21 | `Multiply(1)` is the identity, `Multiply(-1)` is `Neg`, and `Multiply(m)` scales the squared length by m² |
| Geometry.IntersectsSymmetric | internal/geometry/rectangle.go:35-37 | intersection is symmetric |
| Geometry.Rectangle.Intersects | internal/geometry/rectangle.go:35-37 | the four strict comparisons of `Intersects`; `IntersectsIffCommonInteriorPoint` states that they mean a shared interior point, `IntersectsSymmetric` that the test is symmetric |
| Geometry.Rectangle.Extended | internal/geometry/rectangle.go:10-17 | every side moved out by `delta`; `ExtendedMovesEverySide` and `ExtendedKeepsIntersections` state its properties |
| Geometry.Rectangle.AddVector | internal/geometry/rectangle.go:19-26 | both corners translated by the vector; `AddVectorIsTranslation` states that size is kept and `Sub` gives the vector back |
| Geometry.Rectangle.PushVector | internal/geometry/rectangle.go:53-64 | `pushVector`: zero without intersection or below the epsilon, else the shorter candidate, the first on a tie; stated by `PushVectorZeroCases` and `PushVectorXChoice` |
| Geometry.Rectangle.PushVectorX | internal/geometry/rectangle.go:39-44 | the horizontal push; `PushVectorXChoice`, `PushVectorXMinimal` and `PushVectorSeparates` state its choice, minimality and effect |
| Geometry.Rectangle.PushVectorY | internal/geometry/rectangle.go:46-51 | the vertical push; `PushVectorYChoice` and `PushVectorYMinimal` state its choice and minimality |
| Geometry.TouchingIsNotIntersecting | internal/geometry/rectangle.go:35-37 | rectangles sharing only an edge or a corner do not intersect (all comparisons strict) |
| Geometry.IntersectsIffCommonInteriorPoint | internal/geometry/rectangle.go:35-37 | for rectangles with area, the open-interval test holds iff they share an interior point |
| Geometry.ExtendedMovesEverySide | internal/geometry/rectangle.go:10-17 | `Extended(d)` widens and heightens by 2d and keeps a well-formed rectangle well-formed for d ≥ 0 |
| Geometry.ExtendedKeepsIntersections | internal/geometry/rectangle.go:10-17 | for d ≥ 0, whatever intersects a rectangle intersects its extension |
| Geometry.AddVectorIsTranslation | internal/geometry/rectangle.go:19-33 | `AddVector(v)` keeps width and height, `Sub` against the original gives back v, and adding `-v` undoes it |
| Geometry.PushVectorZeroCases | internal/geometry/rectangle.go:39-56 | both pushes are zero for non-intersecting rectangles, and each is zero when its check vector is shorter than 1e-6 |
| Geometry.PushVectorXChoice | internal/geometry/rectangle.go:39-64 | the X push is horizontal and, when non-zero, the shorter of `a.RightX-b.LeftX` and `a.LeftX-b.RightX`, the first on a tie |
| Geometry.PushVectorYChoice | internal/geometry/rectangle.go:46-64 | the Y push is vertical and, when non-zero, the shorter of `a.BottomY-b.TopY` and `a.TopY-b.BottomY`, the first on a tie |
| Geometry.PushVectorSeparates | internal/geometry/rectangle.go:35-51 | a non-zero push moves `b` out of `a` |
| Geometry.PushVectorXMinimal | internal/geometry/rectangle.go:39-44 | every horizontal shift strictly between the two candidates leaves `b` intersecting `a`, so the push is minimal |
| Geometry.PushVectorYMinimal | internal/geometry/rectangle.go:46-51 | the same along Y |
| Geometry.PushCandidatesOpposite | internal/geometry/rectangle.go:39-51 | for intersecting rectangles the two candidates of each axis point in opposite directions |
| Object.TypeOf | internal/object/object.go:5-18 | decoding an integer gives a tag exactly for 0..10, and the tag's ordinal is that integer |
| Object.OrdinalInjective | internal/object/object.go:7-18 | the tag constants are pairwise distinct: equal ordinals mean equal tags, and decoding an ordinal gives the tag back |
| Object.Base.Rectangle | internal/object/object.go:33-40 | the rectangle starts at the origin and spans exactly the width and the height |
| Object.Base.Move | internal/object/object.go:42-45 | moving keeps the size and translates the rectangle by exactly `d` |
| Object.Base.MoveTo | internal/object/object.go:47-50 | `MoveTo(p)` puts the origin at `p` and keeps the size |
| Object.GetOrigin | internal/object/object.go:26-31 | a missing base has no origin; a present one yields its origin |
| Object.RectangleWellFormed | internal/object/object.go:33-40 | a non-negative size is exactly a well-formed rectangle, a positive size exactly one with area |
| Object.MoveUndo | internal/object/object.go:42-45 | moving by `d` then by `-d` restores the base |
| Object.MoveCompose | internal/object/object.go:42-45 | two moves are one move by the sum |
| Object.MoveToForgets | internal/object/object.go:47-50 | `MoveTo` does not depend on the old origin and is idempotent |
| Physics.GravityIsOneThird | internal/physics/object.go:10 | the gravity constant `1.0 * 2.0 / 6.0` is exactly one third |
| Physics.Physical.constructor | internal/physics/object.go:26-31 | `NewPhysical` starts with zero speed and zero acceleration |
| Physics.Physical.Init | internal/physics/object.go:5-8 | a physical state holds exactly the given speed and acceleration |
| Physics.Physical.ApplyAccelerationX | internal/physics/object.go:12-15 | adds `Acceleration.X` to `Speed.X`; `Speed.Y` and the acceleration are unchanged |
| Physics.Physical.ApplyAccelerationY | internal/physics/object.go:17-20 | adds `Acceleration.Y` to `Speed.Y`; `Speed.X` and the acceleration are unchanged |
| Physics.ApplyAcceleration | internal/physics/object.go:12-20 | the `ApplyAcceleration` call of `ProcessPlayerInput` (internal/engine/engine.go:779), taken as X then Y: the new speed is the old speed plus the old acceleration on both axes, and the acceleration is kept |
| Items.New | internal/item/item.go:20-35 | a new item has the given placement, image, name and importance, is uncollected and reports the Item tag |
| Items.ToJson | internal/item/item.go:10-18 | the JSON form carries exactly `name`, `important` and `collected` |
| Items.ApplyJson | internal/item/item.go:10-18 | decoding JSON into an item sets only the keys present and keeps the base and the image |
| Items.ToMsgpack | internal/item/item.go:10-18 | the MessagePack form carries every field but the image |
| Items.SerialisedFields | internal/item/item.go:11-13 | JSON does not see the base or the image; MessagePack ignores only the image and does see the base |
| Items.JsonRoundTrip | internal/item/item.go:10-18 | decoding an item's own JSON into it changes nothing |
| Items.JsonTransfers | internal/item/item.go:10-18 | decoding another item's JSON copies exactly its three JSON fields and keeps the base |
| Portals.New | internal/portal/portal.go:18-34 | every argument is stored verbatim; the portal is linked iff `TeleportTo` is present; the tag is Portal |
| Portals.ToMsgpack | internal/portal/portal.go:10-16 | the MessagePack form carries every field but the image |
| Portals.MsgpackIgnoresImage | internal/portal/portal.go:12 | the image takes no part in the MessagePack form |
| Damage.NewSpike | internal/damage/spike.go:17-31 | a spike covers the given origin and size, has damage 100 and reports the Spike tag |
| Damage.NewBullet | internal/damage/bullet.go:10-38 | a bullet is 1×1 at the origin, untriggered, with the given damage and direction, and reports the EnemyBullet tag |
| Damage.SpikeToMsgpack | internal/damage/spike.go:10-15 | a spike's MessagePack form is its base and damage |
| Damage.BulletToMsgpack | internal/damage/bullet.go:15-21 | a bullet's MessagePack form is its base, direction and `Triggered` flag |
| Damage.MsgpackExclusions | internal/damage/spike.go:14 | the image of a spike, and the image and damage of a bullet, take no part in MessagePack |
| Npcs.New | internal/npc/npc.go:21-37 | an NPC stores its placement, both images and the item name, starts with no linked item and reports the NPC tag |
| Npcs.ToMsgpack | internal/npc/npc.go:12-19 | the MessagePack form of an NPC is its base and the item name |
| Npcs.MsgpackExclusions | internal/npc/npc.go:14-17 | images and the item link take no part in an NPC's MessagePack form |
| Machines.Machine.Type | internal/arcade/machine.go:18-20 | a machine reports the `Arcade` tag, which is not the `ArcadeMachine` tag |
| Machines.New | internal/arcade/machine.go:22-33 | a machine stores its placement, image and item name and starts with no linked item |
| Machines.ToMsgpack | internal/arcade/machine.go:10-16 | the MessagePack form of a machine is its base and the item name |
| Machines.MsgpackExclusions | internal/arcade/machine.go:12-14 | the image and the item link take no part in a machine's MessagePack form |
| Tiles.NewStaticTile | internal/tiles/static.go:16-25 | the integer sizes become exact, integral real sizes, and the tile covers the rectangle from the origin to origin plus size |
| Tiles.ImageIsNotGeometry | internal/tiles/background.go:7-13 | neither the image nor being a background changes a tile's rectangle |
| Players.ChooseAnimation | internal/player/player.go:117-129 | on the ground (coyote included) the player stands iff it has no horizontal speed and otherwise runs; in the air it jumps iff its vertical speed is not positive and otherwise falls |
| Players.Player.constructor | internal/player/player.go:44-70 | a new player is a 32×32 body at the origin with health 100, an empty inventory, no speed or acceleration, no grounding and no animation |
| Players.NewState | internal/player/player.go:15-69 | a new player is alive, 32×32, motionless, with an empty inventory, a valid animation state and a consistent coyote state |
| Players.Player.SetOnGround | internal/player/player.go:72-90 | the method changes only the grounding, exactly as `Grounding.SetOnGround` describes |
| Players.Player.OnGround | internal/player/player.go:92-94 | reports the grounded flag |
| Players.Player.OnGroundCoyote | internal/player/player.go:96-98 | reports the coyote flag |
| Players.Player.ResetCoyote | internal/player/player.go:100-103 | clears only the coyote flag and tick |
| Players.Player.IsDead | internal/player/player.go:105-107 | the player is dead iff its health is at most zero |
| Players.Player.Collect | internal/player/player.go:109-112 | the item is marked collected and appended to the inventory; nothing else changes |
| Players.CollectedItem | internal/player/player.go:110 | collecting sets only the `Collected` flag |
| Players.Player.Image | internal/player/player.go:114-143 | only the animation counters change, exactly as `NextAnimation` describes, and the frame returned is the new current one |
| Players.SetOnGroundFlags | internal/player/player.go:72-90 | landing sets both flags and clears the tick; leaving the ground always clears `onGround`; without coyote nothing else changes; the first airborne tick is recorded; afterwards coyote survives iff at most 5 ticks passed |
| Players.GroundingKeepsConsistency | internal/player/player.go:72-103 | both updates keep "no coyote flag ⇒ tick 0"; a coyote reset keeps `onGround` and clears the flag |
| Players.CoyoteWindow | internal/player/player.go:83-89 | after landing, a run of increasing airborne ticks from a positive first tick keeps a jump available exactly while the latest tick is at most 5 after the first, with the first tick recorded, and once lost the tick is cleared |
| Players.NextAnimationValid | internal/player/player.go:131-142 | after `Image` the animation is the chosen one and the frame index is inside its loaded frames |
| Players.NextAnimationSteps | internal/player/player.go:131-140 | a change of animation restarts it; the same animation advances its frame only once the duration reached 10, else the duration grows by one |
| Players.RunningAlternates | internal/player/player.go:135-137 | the two running frames alternate |
| Platforms.NewState | internal/platform/platform.go:29-47 | a horizontal platform runs from its X to X + distance with speed (speed, 0); a vertical one runs from Y − distance to Y with speed (0, speed); no acceleration is pending |
| Platforms.Platform.constructor | internal/platform/platform.go:29-47 | the new platform's state is `NewState` of the arguments, with the given size and image |
| Platforms.Platform.MoveX | internal/platform/platform.go:49-56 | the state becomes `MoveX` of the old state; the size is unchanged |
| Platforms.Platform.MoveY | internal/platform/platform.go:58-65 | the state becomes `MoveY` of the old state; the size is unchanged |
| Platforms.Platform.Move | internal/platform/platform.go:67-93 | the state becomes `Move` of the old state; the size is unchanged |
| Platforms.MoveStaysInBounds | internal/platform/platform.go:78-86 | a move that starts inside `[start, end]` ends inside it, and a move that does not cross a bound advances by exactly the speed and schedules nothing |
| Platforms.ClampSchedulesBounce | internal/platform/platform.go:79-86 | a move that would cross a bound stops on that bound and schedules minus twice the speed, leaving the speed itself unchanged for this tick |
| Platforms.MoveKeepsOffPath | internal/platform/platform.go:67-93 | a move changes only the coordinate along the path and the scheduled acceleration |
| Platforms.MovesFollowPath | internal/platform/platform.go:49-65 | `MoveX` never moves a vertical platform, `MoveY` never moves a horizontal one, and neither touches the other axis |
| Platforms.DeferredBounce | internal/platform/platform.go:20-56 | after a clamp, the next `MoveX` reverses the horizontal speed with an acceleration of minus twice the old speed |
| Platforms.TickKeepsOscillating | internal/platform/platform.go:49-93 | one tick keeps a horizontal platform inside its bounds, its speed magnitude fixed and any pending bounce opposed to its speed |
| Platforms.OscillatesForever | internal/platform/platform.go:49-93 | the oscillation invariant holds after any number of ticks, with the bounds unchanged |
| Platforms.OffPathForever | internal/platform/platform.go:49-93 | a horizontal platform keeps its Y and its path through any number of ticks |
| Platforms.PlatformStaysOnPath | internal/platform/platform.go:29-93 | a new horizontal platform with a non-negative distance stays within `[X, X + distance]` on its starting row forever, moving at ± its speed |
| Engines.Checksum | internal/engine/engine.go:934-949 | the checksum exists iff the engine can be marshalled, is the hex string that decodes back to the digest, and otherwise carries the marshaller's error behind "marshalling engine: " |
| Engines.OwnChecksumValidates | internal/engine/engine.go:934-961 | an engine's own checksum always validates |
| Engines.ValidatesIffLowercaseHexOfDigest | internal/engine/engine.go:948-961 | a string validates iff it is all lowercase hex digits and decodes to the digest, so an upper-case spelling of the same bytes is rejected |
| Engines.ValidateChecksum | internal/engine/engine.go:951-961 | the result is `ErrInvalidChecksum` iff a checksum exists and differs, and a wrapped compute error iff the digest cannot be computed |
| Engines.CollideGeneric | internal/engine/collisions.go:38-45 | appends to the result exactly the hits of the layer's objects that intersect the rectangle, in slice order |
| Engines.Collide | internal/engine/collisions.go:28-36 | returns exactly the objects that intersect the rectangle, in slice order |
| Engines.CollideIsOrderedSubsequence | internal/engine/collisions.go:28-36 | `Collide`'s result matches the layer's hits one to one at ascending positions of the input |
| Engines.FoldOneMore | internal/engine/engine.go:860-872 | one more iteration of a loop over a collision result is one more step of its fold |
| Engines.Engine.constructor | internal/engine/engine.go:364-384 | the engine's fields hold exactly the given world |
| Engines.Engine.Collisions | internal/engine/collisions.go:9-26 | the result is the world's hit list in drawing order: backgrounds, tiles, items, portals, spikes, NPCs, arcades, the player, bullets |
| Engines.Engine.PlayerRect | internal/engine/engine.go:785 | the player's rectangle |
| Engines.Engine.MovePlayer | internal/engine/engine.go:730-732 | only the player's position changes, by the given vector |
| Engines.Engine.ProcessPlayerInput | internal/engine/engine.go:756-780 | the new world is `Steps.ProcessPlayerInput` of the old one |
| Engines.Engine.FirstOf | internal/engine/engine.go:785-792 | the loop stops at the first hit whose kind is in the set, or finds none |
| Engines.Engine.AlignPlayerX | internal/engine/engine.go:782-799 | the new world is `Steps.AlignX` of the old one |
| Engines.Engine.AlignPlayerY | internal/engine/engine.go:801-826 | the new world is `Steps.AlignY` of the old one |
| Engines.Engine.CheckPortals | internal/engine/engine.go:860-873 | the new world is `Steps.CheckPortals` of the old one: one portal step per hit, in order |
| Engines.Engine.Teleport | internal/engine/engine.go:862-871 | one portal hit with a destination moves the player there; nothing else changes |
| Engines.Engine.Prick | internal/engine/engine.go:877-882 | one spike hit takes its damage off the health; nothing else changes |
| Engines.Engine.CheckSpikes | internal/engine/engine.go:875-884 | the new world is `Steps.CheckSpikes` of the old one |
| Engines.Engine.HasTile | internal/engine/engine.go:891-897 | the loop finds a static tile iff the collision result holds one |
| Engines.Engine.CheckEnemyBullets | internal/engine/engine.go:886-919 | the new world is `Steps.CheckEnemyBullets` of the old one |
| Engines.Engine.AdvanceBullets | internal/engine/engine.go:887-903 | only the bullet list changes: the advanced bullets that touch no static tile, in order |
| Engines.Engine.Trigger | internal/engine/engine.go:906-917 | an untriggered bullet hit hurts the player by its damage and marks the bullet; a triggered one changes nothing |
| Engines.Engine.TriggerBullets | internal/engine/engine.go:905-918 | the second loop is the fold of the trigger step over the hits |
| Engines.Engine.Collect | internal/engine/engine.go:832-843 | an uncollected item hit is marked collected and appended to the inventory; the flag reports exactly that the inventory grew |
| Engines.Engine.CollectItems | internal/engine/engine.go:828-858 | the new world is `Steps.Collected` of the old one, and a snapshot is persisted, with its error returned, exactly when some item was picked up |
| Engines.Engine.CheckNPCClose | internal/engine/engine.go:921-932 | the result is the first NPC hit by the player's rectangle extended by 40, or none |
| Engines.Engine.Reset | internal/engine/engine.go:425-431 | the new world is `Steps.Reset` of the old one |
| Engines.Engine.PlaceGift | internal/engine/engine.go:669-674 | the NPC's linked item is moved to the NPC's origin plus (64, 32) |
| Engines.Engine.DialogKey | internal/engine/engine.go:676-697 | the first newly pressed key acts on the dialog as `Ticks.DialogKey` describes |
| Engines.Engine.DialogTick | internal/engine/engine.go:663-700 | a tick with an open dialog acts as `Ticks.DialogTick` describes |
| Engines.Engine.Simulate | internal/engine/engine.go:729-746 | the physics steps in their fixed order, the pickup and the talk give `Ticks.Simulate`'s world and error |
| Engines.Engine.BeforePickup | internal/engine/engine.go:729-736 | the steps up to the pickup give `Ticks.BeforePickup`'s world |
| Engines.Engine.Talk | internal/engine/engine.go:741-746 | E next to an NPC opens its dialog with the greeting, as `Ticks.Talk` describes |
| Engines.Engine.Gates | internal/engine/engine.go:713-739 | reset, win and death are checked in that order before the physics, as `Ticks.Gates` describes |
| Engines.Engine.Update | internal/engine/engine.go:642-754 | one tick gives exactly `Ticks.Update`'s world and error |
| Engines.Engine.DialogUpdate | internal/engine/engine.go:642-700 | a tick with an open dialog gives `Ticks.Update`'s world and error |
| Engines.Engine.Proceed | internal/engine/engine.go:702-739 | a tick after the dialog check gives `Ticks.Update`'s world and error |
| Engines.Engine.ProceedRunning | internal/engine/engine.go:708-739 | in a running game P pauses and zeroes the speed, and the tick gives `Ticks.Update`'s world and error |
| Engines.Engine.PauseThenGates | internal/engine/engine.go:708-739 | P in a running game pauses it with the speed zeroed, and the tick gives `Ticks.Update`'s world and error |
| Engines.Engine.ApplySnapshot | internal/engine/engine.go:395-397 | for a snapshot the items can take, only the item list changes, as `Levels.SnapshotItems` describes |
| Engines.Engine.CollectInventory | internal/engine/engine.go:399-403 | every collected item is appended to the inventory in item order; nothing else changes |
| Engines.NewFromSnapshot | internal/engine/engine.go:387-406 | creation fails exactly when `Levels.NewFromSnapshot` does, with the same error, and otherwise the fresh engine holds its world |
| Worlds.LayerHitsSpec | internal/engine/collisions.go:38-45 | a layer's hits are of its kind, name exactly the layer's rectangles that intersect the query, and come at ascending positions |
| Worlds.HitsSound | internal/engine/collisions.go:9-26 | every hit of `Collisions` names an existing entity of a scanned layer whose rectangle intersects the query; invisible walls are never hit |
| Worlds.Hits | internal/engine/collisions.go:12-23 | `Collisions` as the concatenation of nine layer scans in drawing order; `HitsSound`, `HitsComplete` and `HitsOrdered` state what it returns |
| Worlds.HitsComplete | internal/engine/collisions.go:9-26 | every entity of a scanned layer that intersects the query is among the hits |
| Worlds.HitsOrdered | internal/engine/collisions.go:12-23 | hits come layer by layer in drawing order, and at ascending positions within a layer |
| Worlds.TileHitIff | internal/engine/engine.go:892-897 | a collision result holds a static tile exactly when some tile intersects the query |
| Worlds.FoldAppend | internal/engine/engine.go:860-918 | folding a loop step over two concatenated hit lists is folding over one, then the other |
| Worlds.FoldIgnores | internal/engine/engine.go:862-864 | a step that skips hits of other kinds leaves the world unchanged over a list of such hits |
| Worlds.InLayers | internal/engine/collisions.go:12-23 | a hit drawn from the nine scanned layers is never an invisible wall or arcade machine, and lies in the layer of its own kind |
| Worlds.OrderedLayers | internal/engine/collisions.go:12-23 | nine layers, each of one kind and ascending, concatenated in the scan order are in drawing order |
| Steps.MovePlayer | internal/engine/engine.go:730-732 | the player's origin moves by the vector and nothing else in the world changes |
| Input.Input.IsKeyPressed | internal/engine/engine.go:763-772 | a key is held exactly when it is in the tick's pressed set; the input package is not part of this model |
| Input.Input.IsKeyNewlyPressed | internal/engine/engine.go:703-713 | a key is newly pressed exactly when it went down this tick |
| Input.Input.JustPressedKeys | internal/engine/engine.go:676 | the keys that went down this tick, in order |
| Steps.ProcessPlayerInput | internal/engine/engine.go:756-780 | the input step on the abstract world; `InputEffects` states its effect and `Engines.Engine.ProcessPlayerInput` is proved equal to it |
| Steps.AlignX | internal/engine/engine.go:782-799 | the horizontal alignment step; `AlignXEffect` states its effect |
| Steps.CheckPortals | internal/engine/engine.go:860-873 | the portal step; `CheckPortalsEffect` states its effect |
| Steps.CheckSpikes | internal/engine/engine.go:875-884 | the spike step; `CheckSpikesEffect` states its effect |
| Steps.CheckEnemyBullets | internal/engine/engine.go:886-919 | the enemy bullet step; `CheckEnemyBulletsEffect` states its effect |
| Steps.Collected | internal/engine/engine.go:828-858 | the item pickup step; `CollectedEffect` states its effect |
| Steps.NpcInReach | internal/engine/engine.go:921-932 | the NPC next to the player; `NpcInReachFirst` and `OverlappedNpcInReach` state which one |
| Steps.InputEffects | internal/engine/engine.go:756-780 | no vertical acceleration iff grounded; A walks left at 5 and looks left, D walks right (A wins), neither stops; a jump needs the coyote flag, sets −10 and clears the flag; the speed then gains the acceleration; position, health and inventory are kept |
| Steps.First | internal/engine/engine.go:785-792 | the result is a hit of one of the kinds, and there is none iff no hit has such a kind |
| Steps.FirstAppend | internal/engine/engine.go:785-792 | the first match in a concatenation is the first in the left part, if any, else the first in the right part |
| Steps.FirstBlocking | internal/engine/engine.go:785-792 | the first blocking hit exists iff a static tile intersects and is then the lowest-positioned such tile |
| Steps.FirstNpc | internal/engine/engine.go:922-929 | the first NPC hit exists iff some NPC intersects and is the lowest-positioned such NPC |
| Steps.AlignY | internal/engine/engine.go:801-826 | the world after vertical alignment: leave the ground, then land on an upward push or stop vertically on another one |
| Steps.Land | internal/engine/engine.go:819-825 | only the player changes: it moves by the push, and an upward push grounds it while any other push zeroes its vertical speed |
| Steps.BlockerIsLowestTile | internal/engine/engine.go:785-792 | there is a blocker iff the player overlaps a static tile, and it is the lowest-positioned one |
| Steps.AlignXEffect | internal/engine/engine.go:782-799 | without an overlapped tile nothing changes; otherwise only the player moves, horizontally, by the push out of the lowest overlapped tile, and a non-zero push clears it of that tile |
| Steps.AlignYEffect | internal/engine/engine.go:801-826 | the player first leaves the ground; without a tile nothing else changes; otherwise it moves vertically by the push, lands on an upward push, stops vertically on any other, and health and inventory are kept |
| Steps.LandingGrounds | internal/engine/engine.go:813-822 | leaving the ground and then landing in one tick leaves the player grounded with the coyote flag set |
| Steps.CheckPortalsEffect | internal/engine/engine.go:860-873 | the player ends at the destination of the last overlapped portal that has one, in portal order; nothing else changes |
| Steps.CheckSpikesEffect | internal/engine/engine.go:875-884 | health drops by the summed damage of every overlapped spike; nothing else changes |
| Steps.SurvivorIndices | internal/engine/engine.go:889-900 | the positions of the bullets that touch no static tile after moving, each once, in ascending order |
| Steps.SurvivingBullets | internal/engine/engine.go:887-903 | the survivors in slice order, one per bullet that touches no tile after moving: entry `j` is the advanced bullet at the `j`-th surviving position; none of them is on a tile |
| Steps.CheckEnemyBulletsEffect | internal/engine/engine.go:886-919 | the bullets advance, those on a tile vanish, and the player takes the damage of every untriggered survivor it overlaps, each of which becomes triggered |
| Steps.Triggered | internal/engine/engine.go:912-917 | triggering keeps the number of bullets |
| Steps.CollectedEffect | internal/engine/engine.go:828-844 | every uncollected item the player overlaps is marked collected and appended to the inventory once, in item order; nothing else changes |
| Steps.MarkCollectedAt | internal/engine/engine.go:836-841 | after the pickup an item is collected iff it was collected before or the player overlaps it, and nothing else about it changes |
| Steps.PickupsEmptyIff | internal/engine/engine.go:837-846 | nothing is picked up, so no snapshot is written, iff every overlapped item was already collected |
| Steps.NpcInReachFirst | internal/engine/engine.go:921-932 | an NPC is in reach iff one intersects the player's rectangle extended by 40, and it is the lowest-positioned such NPC |
| Steps.OverlappedNpcInReach | internal/engine/engine.go:921-932 | an NPC the player overlaps is always in reach, at that position or a lower one |
| Steps.Reset | internal/engine/engine.go:425-431 | back at the spawn with full health, no dialog, no bullets and tick 0; items, inventory and size are kept |
| Steps.PortalLayer | internal/engine/engine.go:860-873 | folding the portal step over the first k portal hits moves the player to the destination of the last overlapped portal among the first k that has one |
| Steps.SpikeLayer | internal/engine/engine.go:875-884 | folding the spike step over the first k spike hits lowers health by the summed damage of the overlapped spikes among the first k |
| Steps.AllBullets | internal/engine/engine.go:905-918 | folding the bullet step over the whole bullet layer deals the damage of the untriggered overlapping bullets and triggers exactly those |
| Steps.ItemLayer | internal/engine/engine.go:828-844 | folding the pickup step over the first k item hits collects the uncollected overlapped items among the first k, in order |
| Ticks.PlaceGift | internal/engine/engine.go:669-674 | only the NPC's linked item moves, to the NPC's origin plus (64, 32); every other field of every item is kept and the world stays valid |
| Ticks.DialogKey | internal/engine/engine.go:676-697 | a key changes only the dialogs and the dialog control; only Enter feeds the buffer to the active dialog, and no other dialog changes |
| Ticks.DialogTick | internal/engine/engine.go:663-700 | with a dialog open no physics runs: player, NPCs, bullets, pause, win flag and tick stay, and the world stays valid |
| Ticks.AllImportantCollected | internal/engine/engine.go:718-720 | the win condition: every important item is collected |
| Ticks.BeforePickup | internal/engine/engine.go:729-736 | the steps up to the pickup keep the frame, the items and the inventory |
| Ticks.Physics | internal/engine/engine.go:729-737 | the physics part of a tick keeps the frame and is progress |
| Ticks.Simulate | internal/engine/engine.go:729-746 | a tick past the gates keeps the world valid and is progress; an error comes only from persisting a snapshot after a pickup, prefixed with "collecting items: " |
| Ticks.Talk | internal/engine/engine.go:741-746 | only the active NPC and the dialogs can change |
| Ticks.Gates | internal/engine/engine.go:713-739 | R, win and death come before the physics; the pause flag is kept; the tick is kept unless R resets it |
| Ticks.InputKeeps | internal/engine/engine.go:756-780 | the input step keeps the frame, items and inventory |
| Ticks.AlignXKeeps | internal/engine/engine.go:782-799 | horizontal alignment keeps the frame, items and inventory |
| Ticks.AlignYKeeps | internal/engine/engine.go:801-826 | vertical alignment keeps the frame, items and inventory |
| Ticks.PortalsKeep | internal/engine/engine.go:860-873 | portals keep the frame, items and inventory |
| Ticks.SpikesKeep | internal/engine/engine.go:875-884 | spikes keep the frame, items and inventory |
| Ticks.BulletsKeep | internal/engine/engine.go:886-919 | bullets keep the frame, items and inventory |
| Ticks.CollectedKeepsFrame | internal/engine/engine.go:828-844 | item pickup keeps the frame |
| Ticks.CollectedIsProgress | internal/engine/engine.go:828-844 | item pickup never uncollects an item and only appends to the inventory |
| Ticks.UpdateKeepsValid | internal/engine/engine.go:642-754 | every tick keeps the world valid, never uncollects an item and only appends to the inventory |
| Ticks.UpdateAdvancesTick | internal/engine/engine.go:643 | every tick advances the counter by one unless R resets it to 0 |
| Ticks.DialogModeHasNoPhysics | internal/engine/engine.go:663-700 | in dialog mode no error occurs and the player, pause, win flag, NPCs and bullets are untouched; Escape closes the dialog and empties the input |
| Ticks.DialogKeys | internal/engine/engine.go:676-697 | only the first newly pressed key counts, only in an unfinished dialog, and each key's effect is stated |
| Ticks.GiftPlacedNextToNpc | internal/engine/engine.go:669-674 | once the dialog gave its item, the linked item sits at the NPC's origin plus (64, 32) |
| Ticks.PausedFreezes | internal/engine/engine.go:702-707 | paused without P, only the tick counter moves |
| Ticks.RunningTick | internal/engine/engine.go:702-712 | a running game without P goes straight to the gates |
| Ticks.InDialog | internal/engine/engine.go:663-700 | with a dialog open the tick is the dialog tick and returns no error |
| Ticks.Unpausing | internal/engine/engine.go:703-704 | P in a paused game unpauses it and the tick goes on |
| Ticks.Pausing | internal/engine/engine.go:708-711 | P in a running game pauses it and zeroes the speed, and the tick goes on |
| Ticks.PToggles | internal/engine/engine.go:702-711 | outside dialogs P toggles the pause flag |
| Ticks.ResetKeepsItems | internal/engine/engine.go:425-431 | R resets to the spawn with full health, no dialog, no bullets and tick 0, keeping items and inventory, without error |
| Ticks.OutstandingEmptyIff | internal/engine/engine.go:718-720 | no important item is outstanding iff every important item is collected |
| Ticks.WinIff | internal/engine/engine.go:718-723 | past the gates before it, the level is won exactly when every important item is collected, and winning freezes everything else |
| Ticks.DeadIsFrozen | internal/engine/engine.go:725-727 | a dead player in an unwon level gets no physics |
| Ticks.AliveSimulates | internal/engine/engine.go:725-746 | a live player in an unwon level gets the physics, the snapshot and the NPC steps |
| Ticks.ErrorOnlyAfterPickup | internal/engine/engine.go:846-855 | an error comes only from the snapshot written after a pickup: the inventory grew and the message is the snapshot's own behind "collecting items: " |
| Ticks.TalkOpensDialog | internal/engine/engine.go:741-746 | E with an NPC in reach opens that NPC's dialog with a fresh greeting; otherwise the physics result stands |
| Levels.ItemOf | internal/engine/engine.go:223-241 | an `item` object makes an uncollected item with the object's name and importance |
| Levels.NpcOf | internal/engine/engine.go:271-289 | an `npc` object makes an unlinked NPC that wants the object's `item` property |
| Levels.MachineOf | internal/engine/engine.go:292-308 | an `arcade` object makes an unlinked machine that provides the object's `item` property |
| Levels.PortalOf | internal/engine/engine.go:242-253 | a `portal` object makes an unlinked portal at the object's place with its `portal-to` property |
| Levels.PlayerSpawn | internal/engine/engine.go:97-110 | the spawn is missing iff no object is a `player_spawn`, and is otherwise the position of the first one |
| Levels.Place | internal/engine/engine.go:222-309 | one pass of the object switch fails iff an NPC has no dialog or an arcade has no game, with that error; items, NPCs and machines are appended, and a portal replaces any earlier one of its name |
| Levels.Gather | internal/engine/engine.go:220-311 | the object loop keeps the portal names listed once each and every portal unlinked, and fails only with a provider error |
| Levels.MadeCovers | internal/engine/engine.go:220-311 | each entity the loop makes comes from an object of its type, and each such object makes one |
| Levels.GatherMakes | internal/engine/engine.go:220-311 | items, NPCs and machines are made in map order |
| Levels.GatherFailsIff | internal/engine/engine.go:274-297 | the object loop fails iff some NPC or arcade has no back-end, and then with the error of the first one |
| Levels.PortalKeptIff | internal/engine/engine.go:242-253 | the portal map holds a name iff some portal object carries it |
| Levels.LastPortalWins | internal/engine/engine.go:243 | under each name the map keeps the portal made from the last portal object of that name |
| Levels.ItemIndex | internal/engine/engine.go:314-316 | the position of the first item with the name, and none iff no item has it |
| Levels.Links | internal/engine/engine.go:313-330 | linking succeeds iff every entity's item exists, giving each the first item of its name, and otherwise fails with the first name that matches no item |
| Levels.MissingDestination | internal/engine/engine.go:332-339 | reports a portal whose non-empty destination the map does not hold, and reports none iff every destination resolves |
| Levels.Resolve | internal/engine/engine.go:332-344 | linking keeps the names and links every portal |
| Levels.LinkPortal | internal/engine/engine.go:333-343 | a portal without destination is unchanged; one with a destination teleports to that portal's origin plus (32, 0) |
| Levels.PortalKeys | internal/engine/engine.go:357-358 | the portal names, each once, sorted |
| Levels.PortalList | internal/engine/engine.go:332-362 | the portals fail to link iff some portal names a destination the map lacks, and the error names such a portal; otherwise the linked portals come in name order |
| Levels.Assemble | internal/engine/engine.go:364-384 | the new world is valid, at tick 0, running, not won, without dialog, bullets or arcades, with a fresh player at the spawn, the gathered entities, each NPC linked and each dialog fresh |
| Levels.New | internal/engine/engine.go:133-385 | a built world is valid, and construction fails with `NoPlayerSpawn` iff the map has no `player_spawn` |
| Levels.ItemNamedIff | internal/engine/engine.go:314-318 | a name resolves among the items iff some item object carries it |
| Levels.MadeLinksIff | internal/engine/engine.go:313-330 | the links of one entity type resolve iff every object of that type names an item object |
| Levels.LastPortalExists | internal/engine/engine.go:243 | every portal object is followed by a last portal object of its name |
| Levels.PortalListIff | internal/engine/engine.go:332-344 | portal linking succeeds iff every kept portal that names a destination names one some portal object carries; overwritten portals are never checked |
| Levels.MissingDestinationFound | internal/engine/engine.go:332-344 | when linking fails, some kept portal object names a destination no portal object carries |
| Levels.MissingDestinationFails | internal/engine/engine.go:332-344 | a kept portal object naming a destination no portal object carries makes linking fail |
| Levels.NewSucceedsIff | internal/engine/engine.go:133-385 | construction succeeds iff the map has a spawn, every NPC and arcade has a back-end and names an item object, and every kept portal's destination exists |
| Levels.NewChecksSpawnThenObjects | internal/engine/engine.go:200-311 | the spawn is checked first and the object loop next |
| Levels.NewChecksNpcsFirst | internal/engine/engine.go:313-330 | NPC links are checked before arcade links and portals |
| Levels.NewChecksPortalsLast | internal/engine/engine.go:322-344 | portals are checked last, and a portal error names a kept portal whose destination no portal object carries |
| Levels.PortalErrorNamesKeptPortal | internal/engine/engine.go:336-339 | the portal error names the destination and a kept portal object of that name |
| Levels.NewInitialState | internal/engine/engine.go:364-384 | a new level is at tick 0, running, not won, without dialog or bullets, with a fresh player at the first spawn, uncollected items in map order, fresh dialogs and each NPC linked to the first item of its name |
| Levels.NewPortals | internal/engine/engine.go:332-362 | the portals of a new level are ordered by name; one without destination stays unlinked and one with a destination teleports next to the portal kept under that name |
| Levels.PortalListLinks | internal/engine/engine.go:340-362 | in the linked portal list each destination resolves next to the portal kept under its name |
| Levels.LinkedPortal | internal/engine/engine.go:340-362 | the portal at position `i` is the one kept under the `i`-th name, with its destination resolved next to the portal kept under that destination, or left unlinked when it names none |
| Levels.DecodeItems | internal/engine/engine.go:395 | decoding a JSON array into the item slice fails exactly when an entry is `null` (a nil item) or lies past the end of the slice (a fresh item without a base), the `null` case first; otherwise the slice is as long as the array and entry `i` is decoded into the item at `i`, keeping its base and image |
| Levels.CollectedItems | internal/engine/engine.go:399-403 | the collected items, and only those |
| Levels.Restore | internal/engine/engine.go:393-405 | restoring fails with the decoder's message iff the snapshot cannot be decoded, panics on a `null` entry, and panics on an entry past the end of the items; otherwise the items are the decoded ones, the inventory gains the collected items and nothing else changes |
| Levels.LargerSnapshotPanics | internal/engine/engine.go:395 | a snapshot of a level with more items than this one leaves an item without a base, and the engine panics on it |
| Levels.NullEntryPanics | internal/engine/engine.go:399-400 | a `null` entry anywhere in the array makes the inventory loop panic |
| Levels.NewFromSnapshot | internal/engine/engine.go:387-406 | restoring fails iff the level cannot be built or its items cannot take the snapshot; a build error is wrapped as "creating engine" |
| Levels.SnapshotOf | internal/engine/engine.go:433-442 | the engine's JSON snapshot holds every item with all three keys |
| Levels.CollectedItemsAppend | internal/engine/engine.go:399-403 | the inventory keeps the order of the items |
| Levels.CollectedItemsExtremes | internal/engine/engine.go:399-403 | nothing collected gives an empty inventory; everything collected gives all the items |
| Levels.RestoredInventory | internal/engine/engine.go:387-406 | a restored engine is the built one with the snapshot's items, and its inventory is exactly their collected ones |
| Levels.SnapshotRoundTrip | internal/engine/engine.go:387-442 | a snapshot written of a later state of the level restores exactly its items and the inventory of their collected ones |
| Levels.RestoreKeepsValid | internal/engine/engine.go:395-403 | restoring keeps the NPC links valid unless the snapshot drops items |
| Engines.ResetShape | internal/engine/engine.go:425-431 | the fields `Reset` writes make up `Steps.Reset` of the old world |
| Levels.Built | internal/engine/engine.go:133-385 | a successful construction found a player spawn, gathered every object, linked NPCs to items and portals to each other, and assembled the world from those parts |
| SimpleArcade.ToMove | internal/arcade/simple.go:116-129 | A moves left, D right, W up and S down, each iff that key; every other key does nothing |
| SimpleArcade.FeedMove | internal/arcade/simple.go:47-53 | only the first key counts, and no key means no move |
| SimpleArcade.Clamp | internal/arcade/simple.go:100-101 | the coordinate is kept inside the grid: unchanged when inside, 0 below it, 63 above it |
| SimpleArcade.Target | internal/arcade/simple.go:87-101 | the player's target is one step in the move's direction, held at the border |
| SimpleArcade.Put | internal/arcade/simple.go:78-108 | writing a cell sets that cell and no other |
| SimpleArcade.Visit | internal/arcade/simple.go:75-110 | one cell of a step: an enemy falls one row unless on the last one, and lands on the player to lose; the player leaves for its target, losing on an enemy and winning on the finish; neither flag is ever cleared |
| SimpleArcade.VisitFlags | internal/arcade/simple.go:80-104 | a visit loses iff already lost, an enemy lands on the player or the player steps onto an enemy, and wins iff already won or the player steps onto the finish |
| SimpleArcade.ScanPosition | internal/arcade/simple.go:73-74 | the scan reaches each cell exactly once, at a position fixed by bottom-up rows and left-to-right columns |
| SimpleArcade.ScanInRow | internal/arcade/simple.go:73-112 | within a row, visiting the next cell to the right is the next step of the scan |
| SimpleArcade.Scan | internal/arcade/simple.go:73-113 | a partial step keeps a 64×64 grid |
| SimpleArcade.Step | internal/arcade/simple.go:72-114 | a step keeps a 64×64 grid |
| SimpleArcade.RowScan | internal/arcade/simple.go:74-112 | the visits of one row, left to right, keep a 64×64 grid |
| SimpleArcade.RowScanIsScan | internal/arcade/simple.go:73-112 | visiting the first cells of a row, from the scan at the row's start, is the scan that many cells further on |
| SimpleArcade.RowDone | internal/arcade/simple.go:73-112 | a whole row takes the scan from the start of that row to the start of the row above |
| SimpleArcade.ResetGrid | internal/arcade/simple.go:58-70 | the reset grid is 64×64 |
| SimpleArcade.ScanKeepsFlags | internal/arcade/simple.go:81-106 | neither the lost nor the won flag is ever cleared by a step |
| SimpleArcade.MoveRevisits | internal/arcade/simple.go:73-108 | moving up or right takes the player to a cell the scan has not reached, so it moves again in the same step; moving down or left, to one it has passed |
| SimpleArcade.Fallen | internal/arcade/simple.go:76-84 | the fallen grid is 64×64 |
| SimpleArcade.PartlyFallen | internal/arcade/simple.go:73-84 | the partly fallen grid is 64×64 and is given cell by cell |
| SimpleArcade.GridsEqual | internal/arcade/simple.go:33 | grids with equal cells are equal |
| SimpleArcade.FallStep | internal/arcade/simple.go:76-84 | without a player, one more visit lets one more cell fall |
| SimpleArcade.ScanFalls | internal/arcade/simple.go:73-113 | without a player, the cells the scan visited have fallen and the others are untouched |
| SimpleArcade.EnemiesFall | internal/arcade/simple.go:72-114 | without a player, a step moves every enemy down one row, drops those on the last row, and changes neither flag, whatever the move |
| SimpleArcade.Simple.Grid | internal/arcade/simple.go:33 | the grid read from the array is 64×64, cell for cell |
| SimpleArcade.Simple.constructor | internal/arcade/simple.go:27-30 | a new game has an empty grid and neither flag |
| SimpleArcade.Simple.Start | internal/arcade/simple.go:38-41 | start resets the grid and leaves the flags |
| SimpleArcade.Simple.Stop | internal/arcade/simple.go:43-45 | stop changes nothing |
| SimpleArcade.Simple.Feed | internal/arcade/simple.go:47-56 | the board becomes `Step` of the old board with the first key's move |
| SimpleArcade.Simple.State | internal/arcade/simple.go:131-156 | the reported state is won iff the won flag is set; its result is lost iff the lost flag is set, and won iff only the won flag is; each pixel is the colour of its cell |
| SimpleArcade.Simple.Reset | internal/arcade/simple.go:58-70 | the grid becomes the reset layout: enemies on even columns of row 0 and odd columns of row 1, the finish at (32, 63), the player at (16, 0); the flags are kept |
| SimpleArcade.Simple.Set | internal/arcade/simple.go:78-108 | writing one array cell is `Put` on the grid |
| SimpleArcade.Simple.VisitCell | internal/arcade/simple.go:75-110 | the loop body at one cell changes the board as `Visit` describes |
| SimpleArcade.Simple.StepGame | internal/arcade/simple.go:72-114 | the two loops change the board as `Step` describes |
| SimpleArcade.Simple.StepRow | internal/arcade/simple.go:74-112 | the inner loop changes the board as `RowScan` describes for the whole row |
| SimpleArcade.FallCell | internal/arcade/simple.go:76-84 | without a player, the visit of one more cell changes at most that cell, which an enemy leaves empty, and the cell below, which that enemy covers |
| Arcades.Flatten | internal/resources/arcades/brodilka.py:48-53 | the bytes a game writes are its rows one after the other |
| Arcades.FlattenLayout | internal/resources/arcades/brodilka.py:48-53 | a screen of 64-byte rows is written as `rows × 64` bytes, cell (y, x) at offset `y × 64 + x` |
| BinaryArcade.KeyCode | internal/arcade/binary.go:19-24 | exactly the four arrow keys have a code, and their codes are 1 to 4 |
| BinaryArcade.Codes | internal/arcade/binary.go:136-139 | the codes are no more than the keys, each is 1 to 4, and every mapped key's code is among them |
| BinaryArcade.CodesAppend | internal/arcade/binary.go:136-139 | the filter keeps order: the codes of two runs of keys are the codes of the first followed by those of the second |
| BinaryArcade.Frame | internal/arcade/binary.go:141-144 | the intended frame is four length bytes and then the codes, and the length reads back as the number of codes |
| BinaryArcade.BrodilkaReadsFrame | internal/arcade/binary.go:141-146 | the brodilka game reads a frame as the moves of its codes and leaves the bytes after it |
| BinaryArcade.MazeReadsFrame | internal/arcade/binary.go:141-146 | the maze game reads a frame's length and body and leaves the bytes after it |
| BinaryArcade.ArrowsAreMoves | internal/arcade/binary.go:136-146 | a move reaches the brodilka game iff some arrow key pressed in the tick maps to it |
| BinaryArcade.CodeHasKey | internal/arcade/binary.go:136-139 | every code in the frame comes from a key |
| BinaryArcade.Reslice | internal/arcade/binary.go:141-144 | `s[lo:hi]` succeeds iff `lo <= hi <= cap(s)`, and its length is `hi - lo` |
| BinaryArcade.Grow | internal/arcade/binary.go:142 | `slices.Grow` leaves the length and the bytes alone and makes room for `n` more |
| BinaryArcade.PutUint32 | internal/arcade/binary.go:143 | writing the length keeps the slice's window |
| BinaryArcade.FrameAsWrittenPanics | internal/arcade/binary.go:141-144 | as written, `buf[4:]` on a zero-length slice is out of range, so every frame panics |
| BinaryArcade.Verdict | internal/arcade/binary.go:157-165 | won iff the reply holds "WIN"; lost iff it holds "LOSE" but not "WIN" |
| BinaryArcade.ScreenOf | internal/arcade/binary.go:167-169 | byte `i` of the reply colours cell (i / 64, i % 64) through the colour table |
| BinaryArcade.FlattenedByte | internal/resources/arcades/brodilka.py:48-53 | every byte written comes from some row |
| BinaryArcade.Absent | internal/arcade/binary.go:158-162 | a stream without one of a marker's bytes does not contain the marker |
| BinaryArcade.CaptionLeads | internal/resources/arcades/brodilka.py:48-53 | text at the start of row 0 opens the stream |
| BinaryArcade.WonScreenUnseen | internal/resources/arcades/brodilka.py:80-84 | the brodilka win screen, captioned "WON", is read by the engine as a game still running |
| BinaryArcade.BrodilkaWinUnseen | internal/resources/arcades/brodilka.py:110-113 | after a win, the program's next pass exits with a screen the engine reads as a game still running |
| BinaryArcade.WinScreenSeen | internal/arcade/binary.go:158-161 | captioned "WIN", the win screen is read as a win |
| BinaryArcade.LoseScreenSeen | internal/arcade/binary.go:162-164 | the lose screen always ends the game, and is read as lost unless a count elsewhere spells "WIN" |
| BinaryArcade.BinaryGame.Grid | internal/arcade/binary.go:41 | the screen array read as a 64×64 grid, cell for cell |
| BinaryArcade.BinaryGame.State | internal/arcade/binary.go:56-58 | the state carries the won flag, the result and the screen |
| BinaryArcade.BinaryGame.constructor | internal/arcade/binary.go:44-54 | a new game is not started, not won, its result unknown and its screen unset |
| BinaryArcade.BinaryGame.Start | internal/arcade/binary.go:60-107 | a started game refuses; otherwise the result is reset, and either every step succeeds and the game runs from the temporary file, or the failing step is reported and everything is cleaned up |
| BinaryArcade.BinaryGame.Cleanup | internal/arcade/binary.go:174-187 | afterwards no file, process or pipe remains; the state is kept |
| BinaryArcade.BinaryGame.Stop | internal/arcade/binary.go:109-129 | nothing to do before a start; otherwise the game is cleaned up and the error is reported iff the kill or the wait failed |
| BinaryArcade.BinaryGame.Feed | internal/arcade/binary.go:131-172 | refuses before a start; writes the frame of the keys; a failed write or short read changes nothing; "WIN" sets won and stops, "LOSE" sets lost and stops, and otherwise the screen is painted from the reply |
| BinaryArcade.BinaryGame.Paint | internal/arcade/binary.go:167-169 | after the loop the screen is `ScreenOf` the reply |
| BinaryArcade.ScreensEqual | internal/arcade/binary.go:41 | screens with equal cells are equal |
| Brodilka.MoveOf | internal/resources/arcades/brodilka.py:23-43 | a byte is a move iff it is 1 to 4; every other byte is skipped |
| Brodilka.FromBigEndian32 | internal/resources/arcades/brodilka.py:31 | on four bytes, `int.from_bytes(…, "big")` is the big-endian 32-bit count |
| Brodilka.KeysLength | internal/resources/arcades/brodilka.py:31-36 | the keys read fit in the input and are no more than the count asks for |
| Brodilka.KeyMoves | internal/resources/arcades/brodilka.py:38-45 | a move is in the set iff some key of the frame is that move |
| Brodilka.Request | internal/resources/arcades/brodilka.py:30-45 | reading a frame consumes a prefix of the input; a zero count gives no moves; a short header consumes everything |
| Brodilka.ReadInput | internal/resources/arcades/brodilka.py:30-45 | the loop over the keys yields `Request` of the input |
| Brodilka.FrameRead | internal/resources/arcades/brodilka.py:30-45 | a four-byte count followed by that many keys reads back as exactly those keys' moves, leaving the rest |
| Brodilka.SumSteps | internal/resources/arcades/brodilka.py:97-108 | summing the steps in whatever order the set yields gives `Delta` of the moves |
| Brodilka.AddStep | internal/resources/arcades/brodilka.py:108 | adding one more move adds its step |
| Brodilka.DeltaBounds | internal/resources/arcades/brodilka.py:97-108 | a frame moves at most one cell along each axis, opposite keys cancel, and the delta is zero iff both pairs are balanced |
| Brodilka.CalcMove | internal/resources/arcades/brodilka.py:60-69 | the shifted cell if it is on the field, else the old one, so a position on the field stays on it |
| Brodilka.Initial | internal/resources/arcades/brodilka.py:11-20 | play begins on a zero field with the player at (0, 0), the drawn target and 32 enemies, neither lost nor won |
| Brodilka.Put | internal/resources/arcades/brodilka.py:120-134 | writing one cell changes that cell and no other |
| Brodilka.PlayerMoves | internal/resources/arcades/brodilka.py:115-120 | the player's move keeps the game well-formed |
| Brodilka.MoveEnemies | internal/resources/arcades/brodilka.py:122-123 | each enemy moves by its own delta |
| Brodilka.Round | internal/resources/arcades/brodilka.py:115-129 | a round keeps the game well-formed |
| Brodilka.PaintEnemies | internal/resources/arcades/brodilka.py:133-134 | painting enemies keeps a 64×64 screen |
| Brodilka.Shown | internal/resources/arcades/brodilka.py:131-134 | the shown screen is 64×64 |
| Brodilka.PaintedCell | internal/resources/arcades/brodilka.py:133-134 | a painted cell shows an enemy iff one stands there |
| Brodilka.ShownCell | internal/resources/arcades/brodilka.py:131-134 | each shown cell is an enemy if one stands there, else the target, else the visit count |
| Brodilka.Caption | internal/resources/arcades/brodilka.py:82-89 | the caption overwrites the first cells of row 0 and nothing else |
| Brodilka.Iteration | internal/resources/arcades/brodilka.py:96-135 | a pass keeps the game well-formed; a lost game exits with "LOSE" and a won one with "WON", as `win()` writes it |
| Brodilka.PassScreen | internal/resources/arcades/brodilka.py:131-135 | every pass writes 4096 bytes, and a pass that goes on writes the shown screen cell by cell |
| Brodilka.LossComesFirst | internal/resources/arcades/brodilka.py:110-113 | a lost game writes the losing screen and exits, even if it was also won |
| Brodilka.LoseScreen | internal/resources/arcades/brodilka.py:87-91 | the field with "LOSE" over the first four cells; `BinaryArcade.LoseScreenSeen` states that the engine sees the loss |
| Brodilka.WinScreenAsWritten | internal/resources/arcades/brodilka.py:80-84 | the field with "WON" over the first three cells; `BinaryArcade.WonScreenUnseen` states that the engine does not see it as a win |
| Brodilka.WinScreen | internal/resources/arcades/brodilka.py:80-84 | the field with "WIN" over the first three cells; `BinaryArcade.WinScreenSeen` states that the engine sees the win |
| Brodilka.VerdictOnNextPass | internal/resources/arcades/brodilka.py:110-135 | the pass that loses or wins still writes the board; the next one writes the "LOSE" or "WON" screen and exits |
| Brodilka.VisitCounts | internal/resources/arcades/brodilka.py:115-120 | a count goes up by one (mod 256) exactly on the cell the player moves onto, and no other count changes |
| Brodilka.PlayerMove | internal/resources/arcades/brodilka.py:115-117 | the player moves by the frame's delta iff that stays on the field, else not at all, and never more than one cell per axis |
| Brodilka.OthersMove | internal/resources/arcades/brodilka.py:56-127 | with deltas as drawn, enemies and the target move at most one cell per axis |
| Brodilka.LostRule | internal/resources/arcades/brodilka.py:115-125 | lost iff lost before, or the player steps onto an enemy, or an enemy steps onto the player |
| Brodilka.WonRule | internal/resources/arcades/brodilka.py:127-129 | won iff won before or the moved target stands on the player |
| Brodilka.StandingStill | internal/resources/arcades/brodilka.py:97-120 | no keys, or only opposite ones, leave the player and the counts unchanged |
| Brodilka.WriteOutput | internal/resources/arcades/brodilka.py:48-53 | the bytes written are `Flatten` of the screen |
| Brodilka.Game.Grid | internal/resources/arcades/brodilka.py:11 | the field array read as a 64×64 grid, cell for cell |
| Brodilka.Game.constructor | internal/resources/arcades/brodilka.py:11-20 | the set-up is `Initial` of the drawn target and enemies |
| Brodilka.Game.Pass | internal/resources/arcades/brodilka.py:96-135 | one pass of the main loop changes the state and writes as `Iteration` describes |
| Brodilka.Game.PlayRound | internal/resources/arcades/brodilka.py:115-129 | the moves and checks change the state as `Round` describes |
| Brodilka.Game.MovePlayer | internal/resources/arcades/brodilka.py:115-120 | the player's move changes the state as `PlayerMoves` describes |
| Brodilka.Game.MoveAll | internal/resources/arcades/brodilka.py:122-123 | the enemies become `MoveEnemies` of the old ones; nothing else changes |
| Brodilka.Game.Render | internal/resources/arcades/brodilka.py:131-135 | the bytes written are the shown screen, row by row |
| Brodilka.RoundIteration | internal/resources/arcades/brodilka.py:96-135 | a running game's pass plays the round of the frame read |
| Brodilka.GridsEqual | internal/resources/arcades/brodilka.py:11 | fields with equal cells are equal |
| Dialogs.SpaceEnd | internal/dialog/binary.go:64 | the scan from the left stops at the first character that is not white space, and passes only white space |
| Dialogs.TextEnd | internal/dialog/binary.go:64 | the scan from the right stops after the last character that is not white space, and passes only white space |
| Dialogs.TrimSpace | internal/dialog/binary.go:64 | `strings.TrimSpace` gives an infix with only white space cut from either end, which neither starts nor ends with white space |
| Dialogs.TrimSpaceKeepsWords | internal/dialog/binary.go:64 | a string without surrounding white space is left as it is |
| Dialogs.UpperHex | internal/dialog/binary.go:43-45 | the code point is written with at least the requested number of digits, and exactly that many when it fits |
| Dialogs.CodePoint | internal/dialog/binary.go:43-45 | `%#U` of a rune below 256 is "U+" and four digits, followed by the quoted rune exactly when `strconv.IsPrint` holds for it |
| Dialogs.HexErrorText | internal/dialog/binary.go:43-45 | the decoding error's message is the odd-length text exactly for an odd length, and otherwise names the invalid byte |
| Dialogs.CodePointExamples | internal/dialog/binary.go:43-45 | byte 0xC3 is reported as "U+00C3 'Ã'" and a tab as "U+0009" without quotes |
| Dialogs.HexDigits | internal/dialog/binary.go:43 | `hex.DecodeString` scans one character per UTF-8 byte of the answer, standing for that byte |
| Dialogs.NonAsciiAnswerReportsLeadingByte | internal/dialog/binary.go:43-45 | an answer that starts with a non-ASCII character is rejected at its first UTF-8 byte, a rune from U+00C0 to U+00FF |
| Dialogs.BinaryOutput | internal/dialog/binary.go:39-60 | in hex mode an answer whose UTF-8 bytes do not decode is an error and the program does not run, and one that decodes runs the program on the decoded bytes; in text mode the program gets the answer as it is |
| Dialogs.Verdict | internal/dialog/binary.go:62-74 | the text only grows; the item is given and the dialog finished iff already so or the trimmed output equals the target; an error only appends its message |
| Dialogs.BinaryDialog.constructor | internal/dialog/binary.go:23-25 | a new dialog has empty text and neither flag |
| Dialogs.BinaryDialog.Greeting | internal/dialog/binary.go:35-37 | the text becomes the greeting and the flags are kept |
| Dialogs.BinaryDialog.Feed | internal/dialog/binary.go:62-74 | the state becomes `Verdict` of the program's outcome on the answer |
| Dialogs.BinaryDialog.SetState | internal/dialog/binary.go:80-82 | the state becomes the one given |
| Dialogs.HexAnswerFeedsBytes | internal/dialog/binary.go:42-47 | in hex mode, the hex encoding of some bytes feeds the program exactly those bytes |
| Dialogs.InvalidHexIsReported | internal/dialog/binary.go:42-66 | an answer that is not hex only appends the decoding error and keeps both flags |
| Dialogs.TrimSpaceAround | internal/dialog/binary.go:64 | what `strings.TrimSpace` keeps is unique: a word with no white space at its ends, surrounded only by white space, is exactly what comes back |
| Dialogs.VerdictIgnoresSurroundingSpace | internal/dialog/binary.go:64-72 | the target padded by white space on either side is accepted: the item is given and the dialog finished |
| Dialogs.Session.Stop | internal/dialog/binary.go:153-167 | both pipes are closed, a started process is forgotten, and the state is kept |
| Dialogs.Session.Restart | internal/dialog/binary.go:169-193 | a process always exists afterwards; it runs iff every step succeeded; the writer exists unless its pipe failed, the reader iff the start was reached; the flags are kept |
| Dialogs.Session.Output | internal/dialog/binary.go:140-151 | at most 1024 characters, a prefix of what the program wrote when there is a reader and the read succeeds |
| Dialogs.Session.Greeting | internal/dialog/binary.go:103-108 | the greeting, a restart and the first output; `GreetingResets` states its effect |
| Dialogs.Session.Respond | internal/dialog/binary.go:125-137 | the read after a write, the finish markers and the item; `RespondIsMonotone` states its effect |
| Dialogs.Session.Feed | internal/dialog/binary.go:110-138 | `Feed` with the missing-writer case returning; `FeedAgreesWhereDefined` relates it to the code as written |
| Dialogs.Session.FeedAsWritten | internal/dialog/binary.go:110-138 | `Feed` as written, which panics on the nil writer; `FeedAgreesWhereDefined` and `NilWriterAfterFailedGreeting` state where it differs |
| Dialogs.InteractiveBinary.constructor | internal/dialog/binary.go:13-21 | a new dialog has empty text, neither flag, and no process or pipes |
| Dialogs.InteractiveBinary.StopBinary | internal/dialog/binary.go:153-167 | the state becomes `Session.Stop` of the old one |
| Dialogs.InteractiveBinary.Restart | internal/dialog/binary.go:169-193 | the state becomes `Session.Restart` of the old one |
| Dialogs.InteractiveBinary.GetOutput | internal/dialog/binary.go:140-151 | the output is `Session.Output` of the read |
| Dialogs.InteractiveBinary.Greeting | internal/dialog/binary.go:103-108 | the state becomes `Session.Greeting` |
| Dialogs.InteractiveBinary.Feed | internal/dialog/binary.go:110-138 | the state becomes the corrected `Session.Feed` of the write's outcome and the read |
| Dialogs.InteractiveBinary.Respond | internal/dialog/binary.go:125-137 | the state becomes `Session.Respond` of the read |
| Dialogs.InteractiveBinary.CheckMarkers | internal/dialog/binary.go:126-131 | if any marker is in the output the dialog is finished and the program stopped; otherwise nothing changes |
| Dialogs.InteractiveBinary.SetState | internal/dialog/binary.go:99-101 | the dialog state becomes the one given; the process and pipes are kept |
| Dialogs.GreetingResets | internal/dialog/binary.go:103-108 | the greeting starts the text anew and clears the end, but keeps a given item; after a clean launch the text is the greeting and the first output |
| Dialogs.FeedIsMonotone | internal/dialog/binary.go:110-138 | feeding only appends to the text and never clears a flag |
| Dialogs.RespondIsMonotone | internal/dialog/binary.go:125-137 | responding appends one line of output and never clears a flag |
| Dialogs.FeedWithoutProgram | internal/dialog/binary.go:111-114 | without a program a feed only reports that |
| Dialogs.FeedFlags | internal/dialog/binary.go:120-137 | with a writer, the dialog ends iff the output shows a marker, gives the item iff it shows the target, and a marker stops the program |
| Dialogs.FeedAgreesWhereDefined | internal/dialog/binary.go:110-138 | as written, a feed panics exactly when a process exists but the writer is nil, and elsewhere agrees with the corrected one |
| Dialogs.NilWriterAfterFailedGreeting | internal/dialog/binary.go:103-178 | a greeting whose stdin pipe fails leaves a process without writer, so the next answer panics as written, while the corrected feed only reports the missing writer |
| Hex.Digit | internal/engine/engine.go:948 | each nibble is written as a lowercase digit |
| Hex.DigitValue | internal/dialog/binary.go:43 | a character has a value iff it is a digit in either case, and the value is below 16 |
| Hex.Encode | internal/engine/engine.go:948 | `hex.EncodeToString` writes two characters per byte |
| Hex.Decode | internal/dialog/binary.go:43 | a successful `hex.DecodeString` gives one byte per two characters; a reported invalid character occurs in the input and is not a hex digit |
| Hex.DecodeSucceedsIff | internal/dialog/binary.go:43-46 | decoding succeeds iff the string has even length and only hex digits |
| Hex.NibbleRoundTrip | internal/engine/engine.go:948 | each digit written reads back as its nibble, and the pair as the byte |
| Hex.DecodeEncode | internal/engine/engine.go:948 | decoding an encoding gives the bytes back |
| Hex.DigitOfValue | internal/dialog/binary.go:43 | a lowercase digit is the digit of its own value |
| Hex.PairDigits | internal/dialog/binary.go:43 | two lowercase digits are the digits of the byte they stand for |
| Hex.EncodeDecode | internal/engine/engine.go:951-961 | a lowercase even-length hex string decodes, and re-encodes as itself |
| Hex.EncodeLowercase | internal/engine/engine.go:948 | every character of an encoding is a lowercase digit |
| Bytes.BigEndian32 | internal/arcade/binary.go:143 | four bytes that read back big-endian as the number |
| Bytes.LittleEndian64 | tasks/rop/generate_rop.py:54 | eight bytes that read back little-endian as the number |
| Bytes.LittleEndianN | tasks/rop/generate_rop.py:54 | `k` bytes that read back little-endian as the number |
| Bytes.Contains | internal/dialog/binary.go:126-131 | `strings.Contains` and `bytes.Contains`: the pattern occurs at some position |
| Rop.Padding | tasks/rop/generate_rop.py:16 | the filler is 24 'A' bytes, exactly the distance from `buf` to the return address |
| Rop.CallBlock | tasks/rop/generate_rop.py:19-31 | one system-call block is twelve words |
| Rop.ExitBlock | tasks/rop/generate_rop.py:45-50 | the exit block is five words |
| Rop.Chain | tasks/rop/generate_rop.py:18-51 | the chain has 29 words, each fits in 64 bits, and both length words are the length of "you win" |
| Rop.Pack | tasks/rop/generate_rop.py:54 | `struct.pack("29Q", …)` gives eight bytes per word |
| Rop.Ljust | tasks/rop/generate_rop.py:54 | `ljust` keeps its input as a prefix and pads it with the fill byte up to the length asked for |
| Rop.PackedWord | tasks/rop/generate_rop.py:54 | word `k` of a packed chain is bytes `8k` to `8k + 8`, little-endian |
| Rop.Zeros | tasks/rop/generate_rop.py:54 | the padding that `ljust` adds after the chain is zeros up to byte 1024 |
| Rop.LayoutOf | tasks/rop/generate_rop.py:52-57 | for any chain that fits, the payload is filler, packed chain, zeros to 1024 bytes, then the text |
| Rop.PayloadOf | tasks/rop/generate_rop.py:52-57 | padding and the packed chain, padded to 1024 bytes, then the tail; `LayoutOf` and `WordsLand` state where each word lands |
| Rop.WordsLand | tasks/rop/generate_rop.py:54 | for any chain that fits, word `k` lands at offset `24 + 8k` |
| Rop.PayloadLayout | tasks/rop/generate_rop.py:52-57 | the payload is 1031 bytes: 24 'A's, the chain from offset 24 to 256 with word `k` at `24 + 8k`, zeros up to 1024, then "you win" |
| Rop.LayoutSlices | tasks/rop/generate_rop.py:52-57 | for a 29-word chain, each slice of the payload is the part it should be |
| Rop.OutputDecodes | tasks/rop/generate_rop.py:56 | the printed text is 2062 lowercase hex digits that decode back to the payload |
| Rop.OrLow | tasks/rop/generate_rop.py:6 | `or al, 0x5b` leaves every byte of `rax` above the lowest |
| Rop.Words | tasks/rop/src/rop.c:31 | the stack is read as one 64-bit word per eight bytes |
| Rop.WordsOfPack | tasks/rop/src/rop.c:31 | a packed chain is read back from the stack as the same words |
| Rop.BlockLoads | tasks/rop/generate_rop.py:19-31 | whatever the registers held, a call block loads exactly its arguments before the `syscall` |
| Rop.ChainEchoes | tasks/rop/generate_rop.py:18-51 | whatever follows it, the chain reads seven bytes of stdin into `.bss`, writes them to stdout and exits with status 0 |
| Rop.ProgramRunsChain | tasks/rop/src/rop.c:24-31 | fed a payload, the victim returns into its chain followed by the zero padding, with the trailing text left on stdin |
| Rop.PayloadWins | tasks/rop/src/rop.c:4-31 | fed the payload, the victim prints "you win" and exits with status 0, within the calls its seccomp filter allows, whatever its registers held |
| Rop.Text | internal/dialog/binary.go:51-59 | the victim's stdout becomes a string byte for byte |
| Rop.Status | internal/dialog/binary.go:54-59 | the run succeeds iff the victim exits with status 0, and then its output is what it wrote |
| Rop.DialogAccepts | internal/dialog/provider.go:31 | answering the rop dialog (hex mode, target "you win") with the printed text gives the item and finishes the dialog |
| Rop.WinText | internal/dialog/provider.go:31 | the trailing text read as a string is the dialog's target, and trimming leaves it as it is |
| Crackme.Mix | tasks/crackme/src/main.rs:8 | one step of the hash stays below 2^64, as `wrapping_mul` on a `u64` does |
| Crackme.HashSnoc | tasks/crackme/src/main.rs:4-12 | the hash starts at 0, and one more byte mixes into the hash of the bytes before it |
| Crackme.Hash | tasks/crackme/src/main.rs:4-12 | the loop computes the left fold of `Mix` over the bytes from 0 |
| Crackme.Judge | tasks/crackme/src/main.rs:16-19 | a flag that is not 32 bytes long is rejected |
| Crackme.CheckFromAccepts | tasks/crackme/src/main.rs:32-42 | the loop from chunk `j` on accepts iff every later chunk starts at a character boundary and hashes to its target |
| Crackme.CheckStep | tasks/crackme/src/main.rs:34-39 | one turn of the loop accepts iff chunk `j` starts at a boundary and hashes to its target, the next offset is a boundary, and the rest of the loop accepts |
| Crackme.CheckFrom | tasks/crackme/src/main.rs:32-42 | the loop of `check_flag` from an offset on; `CheckStep` and `CheckFromAccepts` state when it accepts |
| Crackme.Accepts | tasks/crackme/src/main.rs:16-43 | `check_flag` accepts iff the flag is 32 bytes and each of its eight four-byte chunks starts at a character boundary and hashes to its target |
| Crackme.AsciiNeverPanics | tasks/crackme/src/main.rs:35 | on an ASCII flag no slice panics, so the answer is accept or reject |
| Crackme.CheckFlag | tasks/crackme/src/main.rs:16-43 | the loop, returning at the first chunk that does not match or panicking on a bad boundary, gives `Judge` of the flag |
| Bytes.CharBytes | tasks/crackme/src/main.rs:35 | a character's UTF-8 encoding is one to four bytes, a leading byte and continuation bytes; an ASCII character is its own byte, and any other has at least two bytes led by one of 0xC0 or more |
| Bytes.Utf8 | tasks/crackme/src/main.rs:17-35 | an ASCII string's bytes are its character codes, one per character |
| Crackme.FirstLine | tasks/crackme/src/main.rs:48 | `read_line` gives a prefix of the input with no newline before its last character, ending in a newline unless it is the whole input |
| Crackme.Main | tasks/crackme/src/main.rs:45-55 | for the trimmed first line, the program prints a line iff `check_flag` does not panic, and the line is "gj" iff the flag is accepted, else "bj" |
| Crackme.Answer | tasks/crackme/src/main.rs:50-54 | it prints a line iff `check_flag` does not panic; the line is "gj" iff the flag is accepted, else "bj" |
| Crackme.AnswerMatchesTarget | internal/dialog/provider.go:33 | the crackme dialog (target "gj") is satisfied iff the trimmed first line is accepted |
| Crackme.PrintedWord | tasks/crackme/src/main.rs:51-53 | the newline `println!` adds is trimmed off by the dialog |
| Crackme.LineIsTrimmed | tasks/crackme/src/main.rs:48-50 | white space around the flag and anything after the first line do not change the answer |
| Crackme.PaddedLine | tasks/crackme/src/main.rs:48 | the first line of a padded flag and what follows is the padded flag with its newline |
| Crackme.TrimmedLine | tasks/crackme/src/main.rs:50 | trimming a padded line gives the flag |
| Crackme.LineEnds | tasks/crackme/src/main.rs:48 | a line ending in its only newline is the first line of any text it starts |
| Crackme.NoNewline | tasks/crackme/src/main.rs:48 | a text without a newline is its own first line |
| MazeMap.SideWalls | tasks/maze/maze.cpp:24-87 | every cell of the first and last column of `MAZE` is a wall |
| MazeMap.TopAndBottomWalls | tasks/maze/maze.cpp:24-87 | every cell of the first and last row of `MAZE` is a wall |
| Maze.BorderIsWall | tasks/maze/maze.cpp:24-87 | the maze is walled in: every border cell is '#' |
| Maze.CorridorIsInterior | tasks/maze/maze.cpp:24-87 | a cell that is not '#' is off the border, so a move from it stays on the grid |
| Maze.Put | tasks/maze/maze.cpp:188-196 | writing one screen cell changes that cell and no other |
| Maze.Initial | tasks/maze/maze.cpp:101-129 | before the first frame the player is on 'S', nothing is visited, and the game is neither won nor lost |
| Maze.InitialScreen | tasks/maze/maze.cpp:104-123 | walls are not drawn: the first screen is space everywhere except the exit and the player |
| Maze.Steer | tasks/maze/maze.cpp:164-177 | each direction sets one component of the delta to ±1, so the delta stays a unit step |
| Maze.Advance | tasks/maze/maze.cpp:179-196 | the step wins iff it reaches the exit, before the wall test; a non-wall cell is entered and visited, losing iff visited before; against a wall the player stays; the player is always drawn |
| Maze.AdvanceCases | tasks/maze/maze.cpp:179-196 | the step spelled out by the two outcomes of the wall test |
| Maze.Moves | tasks/maze/maze.cpp:162-197 | the moves of a frame keep the run well-formed |
| Maze.Signed | tasks/maze/maze.cpp:158-159 | a frame byte becomes a signed `char` between -128 and 127 |
| Maze.Ascending | tasks/maze/maze.cpp:162 | walking the `std::set` gives exactly its values, strictly ascending |
| Maze.FrameMoves | tasks/maze/maze.cpp:152-160 | a value is a move iff some byte read is that value, or it is 0 and fewer bytes than the size could be read |
| Maze.Iteration | tasks/maze/maze.cpp:131-199 | a pass keeps the run well-formed and never puts the player on a '#' |
| Maze.BodyLength | tasks/maze/maze.cpp:152-156 | the body read is the size asked for, or what is left of the input when that is shorter |
| Maze.Frame | tasks/maze/maze.cpp:141-198 | a frame keeps the run well-formed |
| Maze.FinishedPass | tasks/maze/maze.cpp:132-139 | after a win (checked first) or a loss, a pass writes only the marker, changes nothing and reads nothing |
| Maze.TruncatedSize | tasks/maze/maze.cpp:145-148 | a running game without four bytes of size throws |
| Maze.FramePass | tasks/maze/maze.cpp:141-198 | a running game's pass reads the size and at most that many bytes, and writes the new screen's 4096 bytes row by row |
| Maze.FrameOrder | tasks/maze/maze.cpp:158-162 | duplicate moves collapse and the moves run in ascending order; every byte read is a move, and nothing else is except a 0 |
| Maze.DeltaCarriesOver | tasks/maze/maze.cpp:141-179 | the delta is reset once per frame, so UP then LEFT moves up, then diagonally up and left |
| Maze.StandingStill | tasks/maze/maze.cpp:186-194 | a zero delta re-enters the player's cell, which loses iff that cell was visited |
| Maze.StartIsNotPreVisited | tasks/maze/maze.cpp:128-193 | the start is not visited at first: one zero move is safe, a second one loses |
| Maze.Passes | tasks/maze/maze.cpp:131-199 | whatever the input, any number of passes keeps the run well-formed and never puts the player on a '#' |
| Maze.MovesStayInCorridor | tasks/maze/maze.cpp:162-197 | the moves of a frame never put a player standing in a corridor on a '#' |
| Maze.Repeat | tasks/maze/maze.cpp:132-139 | `n` copies of a marker are `n` times its length |
| Maze.PassesOnce | tasks/maze/maze.cpp:131-199 | `k` passes are the first pass followed, unless it died, by `k - 1` more on the input it left |
| Maze.OverIsFinal | tasks/maze/maze.cpp:132-139 | once over, every later pass writes the same marker and reads nothing |
| Maze.ShortFrameEndsInput | tasks/maze/maze.cpp:145-156 | a body shorter than its size uses up the input, so the next pass of a running game throws |
| Maze.Program.Grid | tasks/maze/maze.cpp:89 | the screen array read as a 64×64 grid, cell for cell |
| Maze.Program.constructor | tasks/maze/maze.cpp:101-129 | the set-up loops give `Initial` |
| Maze.Program.DrawRow | tasks/maze/maze.cpp:104-123 | one row of the set-up scan draws that row's cells and finds its 'S' |
| Maze.Program.PrintScreen | tasks/maze/maze.cpp:91-98 | the bytes written are the screen, row by row |
| Maze.Program.Step | tasks/maze/maze.cpp:179-196 | the loop body changes the state as `Advance` describes |
| Maze.Program.Enter | tasks/maze/maze.cpp:182-196 | entering a corridor cell clears the old cell, moves, marks the visit, and draws the player |
| Maze.Program.Bump | tasks/maze/maze.cpp:182-196 | against a wall the player stays and is redrawn |
| Maze.Program.Set | tasks/maze/maze.cpp:188-196 | writing one array cell is `Put` on the grid |
| Maze.Program.RunMoves | tasks/maze/maze.cpp:141-197 | the loop over a frame's moves changes the state as `Moves` from a zero delta describes |
| Maze.Program.Pass | tasks/maze/maze.cpp:131-199 | one pass changes the state and writes as `Iteration` describes |
| Maze.Program.PlayFrame | tasks/maze/maze.cpp:141-198 | a running game's pass changes the state and writes as `Iteration` describes |
| Maze.FrameMoveOrder | tasks/maze/maze.cpp:141-162 | a frame is its distinct moves run in ascending order from a zero delta |
| Maze.FrameIteration | tasks/maze/maze.cpp:141-198 | a running game's pass plays the moves of one frame, read as a size and at most that many bytes, and writes the screen that results |
| Maze.FrameOutcome | tasks/maze/maze.cpp:141-198 | a pass that plays one frame and writes the resulting screen is exactly the iteration of a running game |
| Maze.Program.PlayMoves | tasks/maze/maze.cpp:145-197 | the bytes read are the size or what is left of the input, and the game's new state is that frame's moves |
| Maze.Program.RunFrame | tasks/maze/maze.cpp:141-197 | collecting a frame's moves and running them changes the state as `Frame` describes |
| Maze.CollectMoves | tasks/maze/maze.cpp:152-160 | the loop inserting each buffer byte gives `FrameMoves` |
| Maze.GridsEqual | tasks/maze/maze.cpp:89 | screens with equal cells are equal |
| Scoreboard.Listed | cmd/scoreboard/main.go:114-119 | a directory contributes no more files than it lists |
| Scoreboard.ListedAreSnapshots | cmd/scoreboard/main.go:114-119 | a file is taken from a directory iff it is a regular entry whose name starts with "snapshot", joined to the directory's path |
| Scoreboard.TeamFilesFailure | cmd/scoreboard/main.go:109-113 | gathering fails iff some directory cannot be listed, and the error names the first such directory |
| Scoreboard.TeamFilesAreSnapshots | cmd/scoreboard/main.go:108-120 | a team's files are exactly the snapshots listed in its directories |
| Scoreboard.TeamFilesFailureSticks | cmd/scoreboard/main.go:110-113 | once a directory fails, later directories do not change the result |
| Scoreboard.ListSnapshots | cmd/scoreboard/main.go:108-120 | the loops give `TeamFiles` of the directories |
| Scoreboard.OfLevel | cmd/scoreboard/main.go:129-131 | a file is kept iff its path contains the level's name |
| Scoreboard.LevelFiles | cmd/scoreboard/main.go:129-132 | the level's snapshots, all of them and only they, sorted by name |
| Scoreboard.Record | cmd/scoreboard/main.go:151-163 | an important item gets a key, other items none; a time already recorded is never changed |
| Scoreboard.FirstTime | cmd/scoreboard/main.go:155-162 | a recorded time is the creation time of a snapshot in which the item is collected |
| Scoreboard.RecordSnapshotTimes | cmd/scoreboard/main.go:151-163 | after one snapshot an item has a key iff it had one or is important there; its time stays if it was set, else becomes the snapshot's time if collected there, else zero |
| Scoreboard.RecordSnapshot | cmd/scoreboard/main.go:151-163 | the item loop of one snapshot as a fold; `RecordSnapshotTimes` states the times it keeps |
| Scoreboard.RecordAll | cmd/scoreboard/main.go:139-164 | the loop over a level's snapshots as a fold; `RecordAllIsFirst` states that each item gets its first collection time |
| Scoreboard.InSnoc | cmd/scoreboard/main.go:151-163 | one more item adds exactly its own name to the important and the collected names |
| Scoreboard.RecordAllIsFirst | cmd/scoreboard/main.go:139-164 | over a level's snapshots, an item has a key iff it is important in one of them, and its time is that of the first snapshot in which it is collected, or zero |
| Scoreboard.Snapshots | cmd/scoreboard/main.go:139-149 | loading succeeds with one decoded snapshot per file, in order |
| Scoreboard.SnapshotsFailureSticks | cmd/scoreboard/main.go:142-149 | once a file fails to open or decode, later files do not change the result |
| Scoreboard.CollectRound | cmd/scoreboard/main.go:137-164 | the loop over a level's snapshots gives `CollectTimes` of its files |
| Scoreboard.RecordItems | cmd/scoreboard/main.go:151-163 | the loop over one snapshot's items gives `RecordSnapshot` |
| Scoreboard.ItemsFor | cmd/scoreboard/main.go:172-176 | one item per key, in the keys' order, collected iff its time is not zero |
| Scoreboard.LeastExists | cmd/scoreboard/main.go:184-186 | a non-empty set of names has a least one |
| Scoreboard.SortedKeys | cmd/scoreboard/main.go:184-186 | the keys in name order, each exactly once |
| Scoreboard.ConsKey | cmd/scoreboard/main.go:184-186 | the least key followed by the rest holds each key once |
| Scoreboard.LevelItems | cmd/scoreboard/main.go:171-186 | a level's items are sorted by name and are exactly its recorded items |
| Scoreboard.Latest | cmd/scoreboard/main.go:167-182 | the latest time is not before any item's time and is zero or one of them |
| Scoreboard.LatestUnique | cmd/scoreboard/main.go:180-182 | the latest time is unique |
| Scoreboard.InsertItem | cmd/scoreboard/main.go:184-186 | inserting an item by name is inserting its key |
| Scoreboard.SortItems | cmd/scoreboard/main.go:184-186 | sorting items by name is sorting their keys |
| Scoreboard.Summarise | cmd/scoreboard/main.go:166-186 | whatever order the map is walked in, the items are `LevelItems`, the count is the number collected, and the time the latest |
| Scoreboard.VisitKeys | cmd/scoreboard/main.go:171-183 | the map walk yields each key once, counts the collected items, and finds the latest time |
| Scoreboard.CountStep | cmd/scoreboard/main.go:177-179 | one more key adds one to the count iff its item was collected |
| Scoreboard.ItemsForSnoc | cmd/scoreboard/main.go:172-176 | one more key appends its item |
| Scoreboard.LatestStep | cmd/scoreboard/main.go:180-182 | one more key moves the latest time to its time iff that is later |
| Scoreboard.MoveKey | cmd/scoreboard/main.go:171 | moving a key from the remaining keys to the visited keeps them disjoint and shrinks the remainder |
| Scoreboard.KeyStep | cmd/scoreboard/main.go:171 | one more visited key is counted once |
| Scoreboard.SortedNames | cmd/scoreboard/main.go:184-186 | sorting the walked items gives the items in key order, whatever the walk order |
| Scoreboard.SameKeys | cmd/scoreboard/main.go:171 | two walks of the same keys are permutations of each other |
| Scoreboard.RoundsFoldFailureSticks | cmd/scoreboard/main.go:142-149 | once a round fails, later rounds do not change the result |
| Scoreboard.AddRoundIs | cmd/scoreboard/main.go:188-193 | a played round adds its count to the score and its time since the round's start to the total, moves the update time to its latest if later, and appends its level |
| Scoreboard.Sub | cmd/scoreboard/main.go:190 | `Time.Sub`: the difference, saturated at the ends of the 64-bit `Duration` range |
| Scoreboard.AddDuration | cmd/scoreboard/main.go:190 | `+=` on `Duration` wraps around as 64-bit integers; `NothingCollectedTime` shows the effect |
| Scoreboard.Milliseconds | cmd/scoreboard/main.go:204 | `Duration.Milliseconds`, division truncated toward zero; `RankedByScore` uses it for the tie-break |
| Scoreboard.RoundStep | cmd/scoreboard/main.go:128-194 | a round with no snapshots is skipped; a round whose snapshots fail gives that error; otherwise it adds its row |
| Scoreboard.TeamsSpecFailureSticks | cmd/scoreboard/main.go:110-149 | once a team fails, later teams do not change the result |
| Scoreboard.TeamScoreOf | cmd/scoreboard/main.go:104-199 | one team's pass gives `TeamSpec` of the team |
| Scoreboard.TeamSpec | cmd/scoreboard/main.go:104-199 | one team's row or the error that stops the pass; `TeamScoreOf` proves the team loop equal to it |
| Scoreboard.TeamsSpec | cmd/scoreboard/main.go:102-200 | all teams' rows in order, or the first team's error; `TeamsSpecRows`, `TeamsSpecIsFirstFailure` and `GetScoreboard` state its meaning |
| Scoreboard.TeamOrder | cmd/scoreboard/main.go:202-207 | the comparison of teams is a total preorder |
| Scoreboard.GetScoreboard | cmd/scoreboard/main.go:102-209 | it fails iff some team fails, with that error; otherwise it is a permutation of the teams' rows sorted by the comparison |
| Scoreboard.RankedByScore | cmd/scoreboard/main.go:202-207 | a sorted board ranks by score, highest first, and equal scores by total time in milliseconds, shortest first |
| Scoreboard.LevelNames | cmd/scoreboard/main.go:188-189 | the names of the levels shown, in order |
| Scoreboard.RoundsShown | cmd/scoreboard/main.go:128-194 | a team's levels are exactly the rounds that have snapshots, in the order of the rounds |
| Scoreboard.LatestShown | cmd/scoreboard/main.go:171-183 | no item of a level is later than its latest time, which is zero or the time of a collected item |
| Scoreboard.UpdatedAtIsLatest | cmd/scoreboard/main.go:191-198 | a team's update time is not before any collected item shown, and is zero or the time of one |
| Scoreboard.AddRoundShown | cmd/scoreboard/main.go:188-193 | adding a round keeps the update time the latest item time shown |
| Scoreboard.ShownSnoc | cmd/scoreboard/main.go:189-193 | appending a level with its latest time keeps the update time the latest shown |
| Scoreboard.CollectedCount | cmd/scoreboard/main.go:174 | no more items are collected than there are |
| Scoreboard.CountItems | cmd/scoreboard/main.go:172-179 | the items of a walk show as many collected as were counted |
| Scoreboard.ScoreIsShown | cmd/scoreboard/main.go:177-197 | a team's score is the number of collected items its levels show |
| Scoreboard.NothingCollectedTime | cmd/scoreboard/main.go:190 | a round with nothing collected adds the `time.Duration` minimum to the total time (zero time minus a real start time saturates), and changes neither the score nor the update time |
| Scoreboard.TeamsSpecRows | cmd/scoreboard/main.go:102-200 | the board fails iff some team fails, with the first failing team's error; otherwise it holds one row per team, in order |
| Sorting.Insert | internal/engine/engine.go:358 | inserting adds exactly the one element |
| Sorting.InsertionSort | internal/engine/engine.go:358 | sorting permutes its input |
| Sorting.InsertSorted | internal/engine/engine.go:358 | inserting into a sorted sequence keeps it sorted, for a total preorder |
| Sorting.InsertionSortSorted | cmd/scoreboard/main.go:184-207 | for a total preorder the result is a sorted permutation of the input |
| Sorting.StringLeTotal | cmd/scoreboard/main.go:132 | any two strings are ordered one way or the other |
| Sorting.StringLeTransitive | cmd/scoreboard/main.go:132 | the order on strings is transitive |
| Sorting.StringLeAntisymmetric | cmd/scoreboard/main.go:132 | strings ordered both ways are equal |
| Sorting.StringOrder | cmd/scoreboard/main.go:132 | the order on strings is a total preorder |
| Sorting.SortStrings | internal/engine/engine.go:357-358 | `slices.Sort` gives a sorted permutation of the strings |
| Sorting.SortedTail | cmd/scoreboard/main.go:132 | the tail of a sorted sequence is sorted |
| Sorting.SameHeads | cmd/scoreboard/main.go:132 | two sorted permutations of the same strings start with the same one |
| Sorting.SameTails | cmd/scoreboard/main.go:132 | two permutations with the same head have permuted tails |
| Sorting.SortedStringsUnique | cmd/scoreboard/main.go:132 | two sorted permutations of the same strings are equal, so the sorted order by name is unique |
| Sorting.ConsSorted | cmd/scoreboard/main.go:184-186 | an element below every element of a sorted sequence may go in front |

## Left out

- Rendering and audio are not modelled: `Draw`, the dialog, death and win screens, music and mute handling, camera recentering, and the xterm colour values. The simple arcade only assigns a palette index to each cell.
- Asset loading is not modelled: Tiled map parsing, images, sprites, fonts and their caches. Construction takes an abstract list of placed map objects, static tiles and background images, and the tiles' iteration over map layers is not modelled.
- Encodings are parameters. `Checksum` takes a `digest` function standing for MessagePack marshalling plus SHA-256 plus hex. Snapshot persistence takes a `persist` outcome. The JSON and MessagePack forms are modelled only as the field sets they carry.
- Snapshot file names and their timestamps are not modelled, because they come from the clock.
- Subprocess plumbing (`exec.Command`, pipes, temporary files, Kill and Wait) becomes parameters: the outcomes of launch, write and read, and the program's output.
- The dialog and arcade providers are not modelled, because they are id-to-constructor tables. An unknown id surfaces as a construction error, chosen by a `Providers` parameter.
- `slon.js` is not modelled, because it consists only of `Math.random` and asynchronous readline.
- Networking and the command line are not modelled: the game server, the ebiten main loop, the scoreboard's HTTP server, viper configuration, and its directory walk and file reads. The scoreboard takes the directory listings and the decoded snapshots as input, and directory paths are taken to be clean, so `path.Join` only inserts a slash.
- Randomness is an input: brodilka's enemy and target moves are given as deltas.
- IEEE-754 rounding is not modelled, because positions and speeds are exact `real`s.
- Go integer overflow of scores and counters is not modelled; only the scoreboard's `Duration` arithmetic is 64-bit.
- Object.Base: a base is a value that every caller stores back after `Move`/`MoveTo`, so two entities sharing one Go `Base` by reference are not captured. Likewise, the items in the inventory are copies, not references to the level's items.
- Levels.Restore: an entry past the end of the items makes Go return the engine with an item whose base is nil, and the panic comes at the first collision scan (collisions.go:17, object.go:33-35). The model reports that panic as the outcome of restoring.
- NPC-to-item and machine-to-item links are indices into the item list rather than references. Restoring a snapshot with fewer item entries than items can therefore not keep a link that Go would keep through its reference. `Levels.RestoreKeepsValid` requires at least as many entries; with more, restoring panics, so it covers the snapshots with exactly as many.
- No engine code builds, stores or updates arcade machines or platforms, so the model's arcade collision layer is always empty, and the arcade mini-game session inside the engine is not modelled.
- Levels.PortalList: when several portals fail to link, Go reports the one its random map iteration meets first. The model reports the first in name order, and its contract only states that the reported portal is one that fails.
- Geometry.LengthSquaredNonNegative: the "zero only for the zero vector" direction is not stated, because with `real` components it needs a non-linear argument the solver could not close within the resource limit.
- Rop: the victim `rop.c` is modelled by a small interpreter. It knows the gadgets the chain uses by name and only the `read`, `write` and `exit` system calls. The seccomp filter and the real stack overflow are not modelled.
- Crackme: strings are byte sequences, and the hash is `nat` arithmetic reduced modulo 2^64 rather than `bv64`.
- Maze: the logging to standard error is not modelled, because it does not reach the engine.
- Maze.Signed: `static_cast<Move>(c)` (maze.cpp:159) of a byte outside 0..7 gives a value outside the enumerators of `Move` (maze.cpp:16-21), which C++17 leaves unspecified. The model assumes the conversion keeps the signed `char` value: the `std::set` orders the moves by it, and such a move matches no case of the `switch` and leaves the delta as it was.
- Dialogs.Session.Output: the program's output is modelled as characters, so the 1024-byte read of `getOutput` (binary.go:145-146) is a cut at 1024 characters. A cut inside a multi-byte character, and output that is not valid UTF-8, are not captured, because Go strings hold bytes while the dialog text is a character sequence.
- The xterm colours of the binary arcade's screen are kept as raw bytes.
- Scoreboard: the round start and the team's snapshots are inputs. The engine's JSON carries no `created_at`, so a real snapshot decodes with the zero time, and `Scoreboard.NothingCollectedTime` shows what that does to the total.

## Findings

| source | as written | input that shows it | evidently intended | confidence | as-written member | corrected member |
|---|---|---|---|---|---|---|
| internal/arcade/binary.go:141-144 | `g.buf = g.buf[:0]` and `Grow`, then `copy(g.buf[4:], inp)` on a slice of length 0 | any `Feed` after `Start`, even with no keys | the frame is a 4-byte big-endian count, followed by the key codes | not executed | BinaryArcade.FrameAsWrittenPanics | BinaryArcade.Frame |
| internal/resources/arcades/brodilka.py:80-84 | a win writes "WON" into row 0, but the engine looks for "WIN" (internal/arcade/binary.go:27) | a brodilka game in which the target reaches the player | the win screen is read as a win | not executed | BinaryArcade.BrodilkaWinUnseen | BinaryArcade.WinScreenSeen |
| internal/dialog/binary.go:116-120 | after appending "No writer set" the feed goes on and writes to the nil writer | a greeting whose stdin pipe failed, followed by any answer | report the missing writer and return, as the other error cases do | not executed | Dialogs.NilWriterAfterFailedGreeting | Dialogs.InteractiveBinary.Feed |
