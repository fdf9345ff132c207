/**
 * Building a level (`engine.New`) and restoring one from a snapshot
 * (`engine.NewFromSnapshot`). The map file has already been read into its
 * tile layers and a flat list of the objects of its object groups, group by
 * group; looking sprites up is not part of this model, so every object
 * comes with the images it is drawn with.
 */
module Levels {
  import opened Geometry
  import opened Wrappers
  import Object
  import Tiles
  import Items
  import Portals
  import Damage
  import Npcs
  import Machines
  import Players
  import Dialogs
  import Sorting
  import opened Worlds

  /** An object of the map, with the custom properties the engine reads. */
  datatype MapObject = MapObject(
    Type: string, Name: string, X: real, Y: real, Width: real, Height: real,
    Important: bool, PortalTo: string, Boss: string, Item: string,
    Image: Object.Image, DialogImage: Object.Image)

  /** What the dialog and arcade providers know: which ids have a back-end, and whether input is shown. */
  datatype Providers = Providers(HasDialog: string -> bool, HasArcade: string -> bool, DisplayInput: bool)

  /** Why `New` fails, in the order the source checks. */
  datatype BuildError =
    | NoPlayerSpawn
    | UnknownDialog(npc: string)
    | UnknownArcade(arcade: string)
    | NpcItemMissing(item: string)
    | ArcadeItemMissing(item: string)
    | PortalDestinationMissing(destination: string, portal: string)

  /** Where a linked portal sends the player, relative to the destination portal. */
  const TeleportOffset := Vector(32.0, 0.0)

  function OriginOf(o: MapObject): Point { Point(o.X, o.Y) }

  /** The uncollected item an `item` object makes. */
  function ItemOf(o: MapObject): (it: Items.Item)
    ensures it.Name == o.Name && it.Important == o.Important && !it.Collected
  {
    Items.New(OriginOf(o), o.Width, o.Height, o.Image, o.Name, o.Important)
  }

  /** The unlinked NPC an `npc` object makes. */
  function NpcOf(o: MapObject): (n: Npcs.Npc)
    ensures n.ReturnsItem == o.Item && n.LinkedItem.None?
  {
    Npcs.New(OriginOf(o), o.Image, o.DialogImage, o.Width, o.Height, o.Item)
  }

  /** The unlinked machine an `arcade` object makes. */
  function MachineOf(o: MapObject): (m: Machines.Machine)
    ensures m.ProvidesItem == o.Item && m.LinkedItem.None?
  {
    Machines.New(OriginOf(o), o.Image, o.Width, o.Height, o.Item)
  }

  /** The unlinked portal a `portal` object makes. */
  function PortalOf(o: MapObject): (p: Portals.Portal)
    ensures !p.Linked() && p.PortalTo == o.PortalTo && p.Base == Object.Base(OriginOf(o), o.Width, o.Height)
  {
    Portals.New(OriginOf(o), o.Image, o.Width, o.Height, o.PortalTo, None, o.Boss)
  }

  // ---- The spawn point ------------------------------------------------------

  /** `findPlayerSpawn`: the position of the first `player_spawn` object. */
  function PlayerSpawn(objs: seq<MapObject>): (p: Option<Point>)
    ensures p.None? <==> forall i :: 0 <= i < |objs| ==> objs[i].Type != "player_spawn"
    ensures p.Some? ==> exists i :: 0 <= i < |objs| && objs[i].Type == "player_spawn" && p.value == OriginOf(objs[i]) &&
                                    forall j :: 0 <= j < i ==> objs[j].Type != "player_spawn"
    decreases |objs|
  {
    if objs == [] then None
    else if objs[0].Type == "player_spawn" then Some(OriginOf(objs[0]))
    else
      var p := PlayerSpawn(objs[1..]);
      assert forall j :: 1 <= j < |objs| ==> objs[j] == objs[1..][j - 1];
      p
  }

  // ---- The object loop ------------------------------------------------------

  /**
   * What the object loop has gathered. Portals are kept by name, as the
   * source's map is, with their names in first-seen order beside them.
   */
  datatype Placed = Placed(
    Items: seq<Items.Item>,
    Portals: map<string, Portals.Portal>,
    PortalNames: seq<string>,
    Spikes: seq<Damage.Spike>,
    InvWalls: seq<Tiles.InvWall>,
    Npcs: seq<Npcs.Npc>,
    Arcades: seq<Machines.Machine>)

  const NothingPlaced := Placed([], map[], [], [], [], [], [])

  /** The portal names are the map's keys, each once. */
  ghost predicate NamesListed(p: Placed) {
    (forall k :: k in p.Portals <==> k in p.PortalNames) &&
    (forall i, j :: 0 <= i < j < |p.PortalNames| ==> p.PortalNames[i] != p.PortalNames[j])
  }

  /**
   * One pass of the object loop's `switch`. An NPC or an arcade whose id
   * has no back-end fails; a later portal of the same name replaces the
   * earlier one; `boss-win` points and other types are not kept.
   */
  function Place(p: Placed, o: MapObject, prov: Providers): (r: Result<Placed, BuildError>)
    ensures r.Failure? <==> (o.Type == "npc" && !prov.HasDialog(o.Name)) || (o.Type == "arcade" && !prov.HasArcade(o.Name))
    ensures r.Success? && NamesListed(p) ==> NamesListed(r.value)
    ensures r.Failure? ==> r.error == (if o.Type == "npc" then UnknownDialog(o.Name) else UnknownArcade(o.Name))
    ensures r.Success? ==> r.value.Items == p.Items + (if o.Type == "item" then [ItemOf(o)] else [])
    ensures r.Success? ==> r.value.Npcs == p.Npcs + (if o.Type == "npc" then [NpcOf(o)] else [])
    ensures r.Success? ==> r.value.Arcades == p.Arcades + (if o.Type == "arcade" then [MachineOf(o)] else [])
    ensures r.Success? ==> r.value.Portals == if o.Type == "portal" then p.Portals[o.Name := PortalOf(o)] else p.Portals
  {
    var at := OriginOf(o);
    if o.Type == "item" then
      Success(p.(Items := p.Items + [ItemOf(o)]))
    else if o.Type == "portal" then
      var names := if o.Name in p.Portals then p.PortalNames else p.PortalNames + [o.Name];
      Success(p.(Portals := p.Portals[o.Name := PortalOf(o)],
                 PortalNames := names))
    else if o.Type == "spike" then
      Success(p.(Spikes := p.Spikes + [Damage.NewSpike(at, o.Image, o.Width, o.Height)]))
    else if o.Type == "invwall" then
      Success(p.(InvWalls := p.InvWalls + [Tiles.InvWall(Object.Base(at, o.Width, o.Height))]))
    else if o.Type == "npc" then
      if !prov.HasDialog(o.Name) then Failure(UnknownDialog(o.Name))
      else Success(p.(Npcs := p.Npcs + [NpcOf(o)]))
    else if o.Type == "arcade" then
      if !prov.HasArcade(o.Name) then Failure(UnknownArcade(o.Name))
      else Success(p.(Arcades := p.Arcades + [MachineOf(o)]))
    else Success(p)
  }

  /** The object loop: the objects placed in order, stopping at the first that fails. */
  function Gather(objs: seq<MapObject>, prov: Providers): (r: Result<Placed, BuildError>)
    ensures r.Success? ==> NamesListed(r.value)
    ensures r.Failure? ==> r.error.UnknownDialog? || r.error.UnknownArcade?
    ensures r.Success? ==> forall k :: k in r.value.Portals ==> !r.value.Portals[k].Linked()
    decreases |objs|
  {
    if objs == [] then Success(NothingPlaced)
    else
      var n := |objs| - 1;
      var r := Gather(objs[..n], prov);
      if r.Failure? then r else Place(r.value, objs[n], prov)
  }

  /** The entities of one type, made from the objects of that type in map order. */
  function Made<T>(objs: seq<MapObject>, t: string, f: MapObject -> T): seq<T>
    decreases |objs|
  {
    if objs == [] then []
    else
      var n := |objs| - 1;
      Made(objs[..n], t, f) + (if objs[n].Type == t then [f(objs[n])] else [])
  }

  /** Each entity made comes from an object of its type, and each such object makes one. */
  lemma {:induction false} MadeCovers<T>(objs: seq<MapObject>, t: string, f: MapObject -> T)
    ensures forall k :: 0 <= k < |Made(objs, t, f)| ==>
              exists j :: 0 <= j < |objs| && objs[j].Type == t && Made(objs, t, f)[k] == f(objs[j])
    ensures forall j :: 0 <= j < |objs| && objs[j].Type == t ==> f(objs[j]) in Made(objs, t, f)
    decreases |objs|
  {
    if objs != [] {
      var n := |objs| - 1;
      var r := Made(objs[..n], t, f);
      var res := Made(objs, t, f);
      MadeCovers(objs[..n], t, f);
      assert forall j :: 0 <= j < n ==> objs[..n][j] == objs[j];
      forall k | 0 <= k < |res|
        ensures exists j :: 0 <= j < |objs| && objs[j].Type == t && res[k] == f(objs[j])
      {
        if k < |r| {
          assert res[k] == r[k];
          var j :| 0 <= j < n && objs[..n][j].Type == t && r[k] == f(objs[..n][j]);
          assert objs[j] == objs[..n][j];
        } else {
          assert res[k] == f(objs[n]);
        }
      }
      forall j | 0 <= j < |objs| && objs[j].Type == t
        ensures f(objs[j]) in res
      {
        if j < n {
          assert objs[..n][j] == objs[j];
          assert f(objs[..n][j]) in r;
        } else {
          assert res[|res| - 1] == f(objs[n]);
        }
      }
      assert forall k :: 0 <= k < |Made(objs, t, f)| ==>
              exists j :: 0 <= j < |objs| && objs[j].Type == t && Made(objs, t, f)[k] == f(objs[j]);
    } else {
      assert Made(objs, t, f) == [];
    }
  }

  /** The object loop keeps items, NPCs and machines in map order. */
  lemma {:induction false} GatherMakes(objs: seq<MapObject>, prov: Providers)
    requires Gather(objs, prov).Success?
    ensures var p := Gather(objs, prov).value;
            p.Items == Made(objs, "item", ItemOf) && p.Npcs == Made(objs, "npc", NpcOf) &&
            p.Arcades == Made(objs, "arcade", MachineOf)
    decreases |objs|
  {
    if objs != [] {
      GatherMakes(objs[..|objs| - 1], prov);
    }
  }

  /** An object whose id no provider knows. */
  predicate Unlinkable(o: MapObject, prov: Providers) {
    (o.Type == "npc" && !prov.HasDialog(o.Name)) || (o.Type == "arcade" && !prov.HasArcade(o.Name))
  }

  /** The object loop fails exactly when some NPC or arcade has no back-end, and then at the first one. */
  lemma {:induction false} GatherFailsIff(objs: seq<MapObject>, prov: Providers)
    ensures Gather(objs, prov).Failure? <==> exists i :: 0 <= i < |objs| && Unlinkable(objs[i], prov)
    ensures Gather(objs, prov).Failure? ==>
              exists i :: 0 <= i < |objs| && Unlinkable(objs[i], prov) &&
                          (forall j :: 0 <= j < i ==> !Unlinkable(objs[j], prov)) &&
                          Gather(objs, prov).error == (if objs[i].Type == "npc" then UnknownDialog(objs[i].Name) else UnknownArcade(objs[i].Name))
    decreases |objs|
  {
    if objs != [] {
      var n := |objs| - 1;
      GatherFailsIff(objs[..n], prov);
      assert forall j :: 0 <= j < n ==> objs[..n][j] == objs[j];
    }
  }

  /** A `portal` object of the given name. */
  predicate PortalNamed(o: MapObject, name: string) {
    o.Type == "portal" && o.Name == name
  }

  /** The map holds a name exactly when some portal object carries it. */
  lemma {:induction false} PortalKeptIff(objs: seq<MapObject>, prov: Providers, name: string)
    requires Gather(objs, prov).Success?
    ensures name in Gather(objs, prov).value.Portals <==> exists i :: 0 <= i < |objs| && PortalNamed(objs[i], name)
    decreases |objs|
  {
    if objs != [] {
      var n := |objs| - 1;
      PortalKeptIff(objs[..n], prov, name);
      assert forall j :: 0 <= j < n ==> objs[..n][j] == objs[j];
    }
  }

  /** The portal the map keeps under a name is the one made from the last portal object of that name. */
  lemma {:induction false} LastPortalWins(objs: seq<MapObject>, prov: Providers, name: string, i: nat)
    requires Gather(objs, prov).Success?
    requires i < |objs| && PortalNamed(objs[i], name)
    requires forall j :: i < j < |objs| ==> !PortalNamed(objs[j], name)
    ensures name in Gather(objs, prov).value.Portals
    ensures Gather(objs, prov).value.Portals[name] == PortalOf(objs[i])
    decreases |objs|
  {
    var n := |objs| - 1;
    var before := Gather(objs[..n], prov).value.Portals;
    var after := Gather(objs, prov).value.Portals;
    assert after == if objs[n].Type == "portal" then before[objs[n].Name := PortalOf(objs[n])] else before;
    if i < n {
      assert !PortalNamed(objs[n], name);
      assert forall j :: i < j < n ==> objs[j] == objs[..n][j];
      LastPortalWins(objs[..n], prov, name, i);
    }
  }

  // ---- Links to items -------------------------------------------------------

  /** `slices.IndexFunc` by name: the position of the first item with that name. */
  function ItemIndex(items: seq<Items.Item>, name: string): (r: Option<nat>)
    ensures r.Some? ==> r.value < |items| && items[r.value].Name == name &&
                        forall j :: 0 <= j < r.value ==> items[j].Name != name
    ensures r.None? <==> forall j :: 0 <= j < |items| ==> items[j].Name != name
    decreases |items|
  {
    if items == [] then None
    else if items[0].Name == name then Some(0)
    else
      var r := ItemIndex(items[1..], name);
      assert forall j :: 1 <= j < |items| ==> items[j] == items[1..][j - 1];
      if r.None? then None else Some(r.value + 1)
  }

  /**
   * The linking loops after the object loop: the item each entity names,
   * or the first name that matches no item.
   */
  function Links<T>(xs: seq<T>, items: seq<Items.Item>, wants: T -> string): (r: Result<seq<nat>, string>)
    ensures r.Success? <==> forall k :: 0 <= k < |xs| ==> ItemIndex(items, wants(xs[k])).Some?
    ensures r.Success? ==> |r.value| == |xs| && forall k :: 0 <= k < |xs| ==> ItemIndex(items, wants(xs[k])) == Some(r.value[k])
    ensures r.Failure? ==> exists k :: 0 <= k < |xs| && r.error == wants(xs[k]) && ItemIndex(items, wants(xs[k])).None? &&
                                       forall j :: 0 <= j < k ==> ItemIndex(items, wants(xs[j])).Some?
    decreases |xs|
  {
    if xs == [] then Success([])
    else
      var i := ItemIndex(items, wants(xs[0]));
      if i.None? then Failure(wants(xs[0]))
      else
        var rest := Links(xs[1..], items, wants);
        assert forall k :: 1 <= k < |xs| ==> xs[k] == xs[1..][k - 1];
        if rest.Failure? then rest
        else Success([i.value] + rest.value)
  }

  // ---- Portals --------------------------------------------------------------

  /** The first of `names` whose portal names a destination the map does not hold. */
  function MissingDestination(names: seq<string>, m: map<string, Portals.Portal>): (r: Option<string>)
    requires forall k :: k in names ==> k in m
    ensures r.None? <==> forall k :: k in names ==> m[k].PortalTo == "" || m[k].PortalTo in m
    ensures r.Some? ==> r.value in names && m[r.value].PortalTo != "" && m[r.value].PortalTo !in m
    decreases |names|
  {
    if names == [] then None
    else
      var k := names[0];
      if m[k].PortalTo != "" && m[k].PortalTo !in m then Some(k)
      else
        assert forall x :: x in names[1..] ==> x in names;
        assert forall x :: x in names ==> x == k || x in names[1..];
        MissingDestination(names[1..], m)
  }

  /** Linking the portals: each one that names a destination teleports next to it. */
  function Resolve(m: map<string, Portals.Portal>): (r: map<string, Portals.Portal>)
    requires forall k :: k in m ==> m[k].PortalTo == "" || m[k].PortalTo in m
    ensures r.Keys == m.Keys
    ensures forall k :: k in m ==> r[k] == LinkPortal(m, k)
  {
    map k | k in m :: LinkPortal(m, k)
  }

  /** The portal kept under `k` once it is linked to its destination. */
  function LinkPortal(m: map<string, Portals.Portal>, k: string): (p: Portals.Portal)
    requires k in m && (m[k].PortalTo == "" || m[k].PortalTo in m)
    ensures m[k].PortalTo == "" ==> p == m[k]
    ensures m[k].PortalTo != "" ==> p == m[k].(TeleportTo := Some(m[m[k].PortalTo].Base.Origin.Add(TeleportOffset)))
  {
    if m[k].PortalTo == "" then m[k] else m[k].(TeleportTo := Some(m[m[k].PortalTo].Base.Origin.Add(TeleportOffset)))
  }

  // ---- New --------------------------------------------------------------------

  /** The initial state of a fresh dialog. */
  const FreshDialog := Dialogs.State("", false, false)

  /** The portal names in the order the engine keeps its portals: sorted. */
  function PortalKeys(p: Placed): (keys: seq<string>)
    requires NamesListed(p)
    ensures forall k :: k in keys <==> k in p.Portals
    ensures Sorting.SortedBy(keys, Sorting.StringLe)
  {
    var keys := Sorting.SortStrings(p.PortalNames);
    assert forall k :: k in keys <==> k in multiset(p.PortalNames);
    keys
  }

  /**
   * The linking loop over the portal map, then the portals in name order.
   * It fails when some portal names a destination the map does not hold.
   */
  function PortalList(p: Placed): (r: Result<seq<Portals.Portal>, BuildError>)
    requires NamesListed(p)
    ensures r.Failure? <==> exists k :: k in p.Portals && p.Portals[k].PortalTo != "" && p.Portals[k].PortalTo !in p.Portals
    ensures r.Failure? ==> r.error.PortalDestinationMissing? && r.error.portal in p.Portals &&
                           p.Portals[r.error.portal].PortalTo == r.error.destination && r.error.destination !in p.Portals
    ensures r.Success? ==> var keys := PortalKeys(p);
                           |r.value| == |keys| && forall i :: 0 <= i < |keys| ==> r.value[i] == LinkPortal(p.Portals, keys[i])
  {
    var keys := PortalKeys(p);
    var missing := MissingDestination(keys, p.Portals);
    if missing.Some? then Failure(PortalDestinationMissing(p.Portals[missing.value].PortalTo, missing.value))
    else
      var m := Resolve(p.Portals);
      Success(seq(|keys|, i requires 0 <= i < |keys| => m[keys[i]]))
  }

  /** The world once every link has resolved: a fresh player at the spawn point, nothing active. */
  function Assemble(level: string, tiles: seq<Tiles.StaticTile>, backgrounds: seq<Tiles.BackgroundImage>,
                    spawn: Point, p: Placed, npcItems: seq<nat>, portals: seq<Portals.Portal>, prov: Providers): (w: World)
    requires |npcItems| == |p.Npcs| && forall k :: 0 <= k < |npcItems| ==> npcItems[k] < |p.Items|
    ensures Valid(w)
    ensures w.Tick == 0 && !w.Paused && !w.IsWin && w.ActiveNPC.None? && w.EnemyBullets == [] && w.Arcades == []
    ensures w.Spawn == spawn && w.Player == Players.NewState(spawn) && w.Level == level
    ensures w.Tiles == tiles && w.BackgroundImages == backgrounds && w.Control == DialogControl([], 0, !prov.DisplayInput)
    ensures w.Items == p.Items && w.Portals == portals && w.Spikes == p.Spikes && w.InvWalls == p.InvWalls
    ensures |w.NPCs| == |p.Npcs| && forall n :: 0 <= n < |p.Npcs| ==> w.NPCs[n] == p.Npcs[n].(LinkedItem := Some(npcItems[n]))
    ensures |w.Dialogs| == |p.Npcs| && forall n :: 0 <= n < |p.Npcs| ==> w.Dialogs[n] == FreshDialog
  {
    World(tiles, backgrounds, Players.NewState(spawn), p.Items, portals, p.Spikes, p.InvWalls,
          seq(|p.Npcs|, k requires 0 <= k < |p.Npcs| => p.Npcs[k].(LinkedItem := Some(npcItems[k]))),
          [], [], seq(|p.Npcs|, _ => FreshDialog), spawn, None,
          DialogControl([], 0, !prov.DisplayInput), false, 0, level, false)
  }

  /**
   * `engine.New`: the spawn point, the object loop, the NPC links, the
   * arcade links, then the portal links; the first failure is the result.
   * Arcade machines are built and linked but the engine does not keep them.
   */
  function New(level: string, tiles: seq<Tiles.StaticTile>, backgrounds: seq<Tiles.BackgroundImage>,
               objs: seq<MapObject>, prov: Providers): (r: Result<World, BuildError>)
    ensures r.Success? ==> Valid(r.value)
    ensures r.Failure? && r.error == NoPlayerSpawn <==> PlayerSpawn(objs).None?
  {
    var spawn := PlayerSpawn(objs);
    if spawn.None? then Failure(NoPlayerSpawn)
    else
      var g := Gather(objs, prov);
      if g.Failure? then Failure(g.error)
      else
        var p := g.value;
        var npcItems := Links(p.Npcs, p.Items, NpcWants);
        if npcItems.Failure? then Failure(NpcItemMissing(npcItems.error))
        else
          var arcadeItems := Links(p.Arcades, p.Items, ArcadeWants);
          if arcadeItems.Failure? then Failure(ArcadeItemMissing(arcadeItems.error))
          else
            var portals := PortalList(p);
            if portals.Failure? then Failure(portals.error)
            else Success(Assemble(level, tiles, backgrounds, spawn.value, p, npcItems.value, portals.value, prov))
  }

  function NpcWants(n: Npcs.Npc): string { n.ReturnsItem }

  function ArcadeWants(a: Machines.Machine): string { a.ProvidesItem }

  // ---- When construction succeeds -----------------------------------------

  /** Some `item` object carries the name. */
  predicate HasItemNamed(objs: seq<MapObject>, name: string) {
    exists j :: 0 <= j < |objs| && objs[j].Type == "item" && objs[j].Name == name
  }

  /** The last `portal` object of its name: the one the map keeps. */
  predicate LastPortal(objs: seq<MapObject>, i: int) {
    0 <= i < |objs| && objs[i].Type == "portal" && forall j :: i < j < |objs| ==> !PortalNamed(objs[j], objs[i].Name)
  }

  /** A name resolves among the items exactly when some item object carries it. */
  lemma ItemNamedIff(objs: seq<MapObject>, name: string)
    ensures ItemIndex(Made(objs, "item", ItemOf), name).Some? <==> HasItemNamed(objs, name)
  {
    var items := Made(objs, "item", ItemOf);
    MadeCovers(objs, "item", ItemOf);
    if HasItemNamed(objs, name) {
      var j :| 0 <= j < |objs| && objs[j].Type == "item" && objs[j].Name == name;
      assert ItemOf(objs[j]) in items;
      var k :| 0 <= k < |items| && items[k] == ItemOf(objs[j]);
      assert items[k].Name == name;
    }
    if ItemIndex(items, name).Some? {
      var k := ItemIndex(items, name).value;
      var j :| 0 <= j < |objs| && objs[j].Type == "item" && items[k] == ItemOf(objs[j]);
      assert objs[j].Name == name;
    }
  }

  /** The links of one entity type resolve exactly when every object of that type names an item object. */
  lemma MadeLinksIff<T>(objs: seq<MapObject>, t: string, f: MapObject -> T, wants: T -> string)
    requires forall o :: wants(f(o)) == o.Item
    ensures Links(Made(objs, t, f), Made(objs, "item", ItemOf), wants).Success? <==>
              forall i :: 0 <= i < |objs| && objs[i].Type == t ==> HasItemNamed(objs, objs[i].Item)
  {
    var xs := Made(objs, t, f);
    var items := Made(objs, "item", ItemOf);
    MadeCovers(objs, t, f);
    forall name ensures ItemIndex(items, name).Some? <==> HasItemNamed(objs, name) {
      ItemNamedIff(objs, name);
    }
    if forall k :: 0 <= k < |xs| ==> ItemIndex(items, wants(xs[k])).Some? {
      forall i | 0 <= i < |objs| && objs[i].Type == t ensures HasItemNamed(objs, objs[i].Item) {
        var k :| 0 <= k < |xs| && xs[k] == f(objs[i]);
        assert wants(xs[k]) == objs[i].Item;
      }
    }
    if forall i :: 0 <= i < |objs| && objs[i].Type == t ==> HasItemNamed(objs, objs[i].Item) {
      forall k | 0 <= k < |xs| ensures ItemIndex(items, wants(xs[k])).Some? {
        var j :| 0 <= j < |objs| && objs[j].Type == t && xs[k] == f(objs[j]);
        assert wants(xs[k]) == objs[j].Item;
      }
    }
  }

  /** Every portal object is followed by a last one of its name. */
  lemma {:induction false} LastPortalExists(objs: seq<MapObject>, name: string, i: nat)
    requires i < |objs| && PortalNamed(objs[i], name)
    ensures exists l :: i <= l < |objs| && PortalNamed(objs[l], name) && LastPortal(objs, l)
    decreases |objs| - i
  {
    if exists j :: i < j < |objs| && PortalNamed(objs[j], name) {
      var j :| i < j < |objs| && PortalNamed(objs[j], name);
      LastPortalExists(objs, name, j);
    } else {
      assert LastPortal(objs, i);
    }
  }

  /**
   * The portal links resolve exactly when every portal object the map
   * keeps, that names a destination, names one some portal object carries.
   * An overwritten portal object's destination is never looked up.
   */
  lemma PortalListIff(objs: seq<MapObject>, prov: Providers)
    requires Gather(objs, prov).Success?
    ensures PortalList(Gather(objs, prov).value).Success? <==>
              forall i :: LastPortal(objs, i) && objs[i].PortalTo != "" ==>
                exists j :: 0 <= j < |objs| && PortalNamed(objs[j], objs[i].PortalTo)
  {
    if PortalList(Gather(objs, prov).value).Failure? {
      MissingDestinationFound(objs, prov);
    }
    if exists i :: LastPortal(objs, i) && objs[i].PortalTo != "" &&
                   !exists j :: 0 <= j < |objs| && PortalNamed(objs[j], objs[i].PortalTo) {
      var i :| LastPortal(objs, i) && objs[i].PortalTo != "" &&
               !exists j :: 0 <= j < |objs| && PortalNamed(objs[j], objs[i].PortalTo);
      MissingDestinationFails(objs, prov, i);
    }
  }

  /** When the linking fails, the portal it fails on was kept from a last portal object whose destination no portal object carries. */
  lemma MissingDestinationFound(objs: seq<MapObject>, prov: Providers)
    requires Gather(objs, prov).Success? && PortalList(Gather(objs, prov).value).Failure?
    ensures exists i :: LastPortal(objs, i) && objs[i].PortalTo != "" &&
              !exists j :: 0 <= j < |objs| && PortalNamed(objs[j], objs[i].PortalTo)
  {
    var m := Gather(objs, prov).value.Portals;
    var k :| k in m && m[k].PortalTo != "" && m[k].PortalTo !in m;
    PortalKeptIff(objs, prov, k);
    var i :| 0 <= i < |objs| && PortalNamed(objs[i], k);
    LastPortalExists(objs, k, i);
    var l :| i <= l < |objs| && PortalNamed(objs[l], k) && LastPortal(objs, l);
    LastPortalWins(objs, prov, k, l);
    assert objs[l].PortalTo == m[k].PortalTo;
    PortalKeptIff(objs, prov, m[k].PortalTo);
  }

  /** A kept portal object whose destination no portal object carries makes the linking fail. */
  lemma MissingDestinationFails(objs: seq<MapObject>, prov: Providers, i: int)
    requires Gather(objs, prov).Success?
    requires LastPortal(objs, i) && objs[i].PortalTo != ""
    requires !exists j :: 0 <= j < |objs| && PortalNamed(objs[j], objs[i].PortalTo)
    ensures PortalList(Gather(objs, prov).value).Failure?
  {
    var m := Gather(objs, prov).value.Portals;
    LastPortalWins(objs, prov, objs[i].Name, i);
    assert m[objs[i].Name].PortalTo == objs[i].PortalTo;
    PortalKeptIff(objs, prov, objs[i].PortalTo);
  }

  /**
   * Construction succeeds exactly when the map has a `player_spawn`, every
   * NPC and arcade has a back-end, every NPC and arcade names an item
   * object, and every kept portal's destination exists.
   */
  lemma NewSucceedsIff(level: string, tiles: seq<Tiles.StaticTile>, backgrounds: seq<Tiles.BackgroundImage>,
                       objs: seq<MapObject>, prov: Providers)
    ensures New(level, tiles, backgrounds, objs, prov).Success? <==>
              (exists i :: 0 <= i < |objs| && objs[i].Type == "player_spawn") &&
              (forall i :: 0 <= i < |objs| ==> !Unlinkable(objs[i], prov)) &&
              (forall i :: 0 <= i < |objs| && (objs[i].Type == "npc" || objs[i].Type == "arcade") ==> HasItemNamed(objs, objs[i].Item)) &&
              (forall i :: LastPortal(objs, i) && objs[i].PortalTo != "" ==>
                 exists j :: 0 <= j < |objs| && PortalNamed(objs[j], objs[i].PortalTo))
  {
    GatherFailsIff(objs, prov);
    if PlayerSpawn(objs).Some? && Gather(objs, prov).Success? {
      GatherMakes(objs, prov);
      MadeLinksIff(objs, "npc", NpcOf, NpcWants);
      MadeLinksIff(objs, "arcade", MachineOf, ArcadeWants);
      PortalListIff(objs, prov);
    }
  }

  /** The spawn point is checked first and the object loop next: a later error means both passed. */
  lemma NewChecksSpawnThenObjects(level: string, tiles: seq<Tiles.StaticTile>, backgrounds: seq<Tiles.BackgroundImage>,
                                  objs: seq<MapObject>, prov: Providers)
    ensures var r := New(level, tiles, backgrounds, objs, prov);
            r.Failure? && !r.error.NoPlayerSpawn? ==>
              PlayerSpawn(objs).Some? &&
              (r.error.UnknownDialog? || r.error.UnknownArcade? ||
               forall i :: 0 <= i < |objs| ==> !Unlinkable(objs[i], prov))
  {
    GatherFailsIff(objs, prov);
  }

  /** NPC links are checked before arcade links and portals. */
  lemma NewChecksNpcsFirst(level: string, tiles: seq<Tiles.StaticTile>, backgrounds: seq<Tiles.BackgroundImage>,
                           objs: seq<MapObject>, prov: Providers)
    ensures var r := New(level, tiles, backgrounds, objs, prov);
            r.Failure? && (r.error.ArcadeItemMissing? || r.error.PortalDestinationMissing?) ==>
              forall i :: 0 <= i < |objs| && objs[i].Type == "npc" ==> HasItemNamed(objs, objs[i].Item)
  {
    if PlayerSpawn(objs).Some? && Gather(objs, prov).Success? {
      GatherMakes(objs, prov);
      MadeLinksIff(objs, "npc", NpcOf, NpcWants);
    }
  }

  /**
   * Portals are checked last. A portal error names a kept portal whose
   * destination no portal object carries.
   */
  lemma NewChecksPortalsLast(level: string, tiles: seq<Tiles.StaticTile>, backgrounds: seq<Tiles.BackgroundImage>,
                             objs: seq<MapObject>, prov: Providers)
    ensures var r := New(level, tiles, backgrounds, objs, prov);
            r.Failure? && r.error.PortalDestinationMissing? ==>
              (forall i :: 0 <= i < |objs| && objs[i].Type == "arcade" ==> HasItemNamed(objs, objs[i].Item)) &&
              r.error.destination != "" &&
              (exists i :: LastPortal(objs, i) && objs[i].Name == r.error.portal && objs[i].PortalTo == r.error.destination) &&
              !exists j :: 0 <= j < |objs| && PortalNamed(objs[j], r.error.destination)
  {
    var r := New(level, tiles, backgrounds, objs, prov);
    if r.Failure? && r.error.PortalDestinationMissing? {
      GatherMakes(objs, prov);
      MadeLinksIff(objs, "arcade", MachineOf, ArcadeWants);
      PortalErrorNamesKeptPortal(objs, prov);
    }
  }

  /** A portal error names a kept portal object and a destination no portal object carries. */
  lemma PortalErrorNamesKeptPortal(objs: seq<MapObject>, prov: Providers)
    requires Gather(objs, prov).Success?
    ensures var r := PortalList(Gather(objs, prov).value);
            r.Failure? ==>
              r.error.destination != "" &&
              (exists i :: LastPortal(objs, i) && objs[i].Name == r.error.portal && objs[i].PortalTo == r.error.destination) &&
              !exists j :: 0 <= j < |objs| && PortalNamed(objs[j], r.error.destination)
  {
    var r := PortalList(Gather(objs, prov).value);
    if r.Failure? {
      var k := r.error.portal;
      PortalKeptIff(objs, prov, k);
      PortalKeptIff(objs, prov, r.error.destination);
      var i :| 0 <= i < |objs| && PortalNamed(objs[i], k);
      LastPortalExists(objs, k, i);
      var l :| i <= l < |objs| && PortalNamed(objs[l], k) && LastPortal(objs, l);
      LastPortalWins(objs, prov, k, l);
    }
  }

  /**
   * A new level: tick 0, running, not won, no dialog or bullets, a fresh
   * player at the first spawn point, every item uncollected and in map
   * order, each NPC linked to the first item of its name, every dialog fresh.
   */
  lemma NewInitialState(level: string, tiles: seq<Tiles.StaticTile>, backgrounds: seq<Tiles.BackgroundImage>,
                        objs: seq<MapObject>, prov: Providers)
    requires New(level, tiles, backgrounds, objs, prov).Success?
    ensures var w := New(level, tiles, backgrounds, objs, prov).value;
            w.Tick == 0 && !w.Paused && !w.IsWin && w.ActiveNPC.None? && w.EnemyBullets == [] &&
            PlayerSpawn(objs) == Some(w.Spawn) && w.Player == Players.NewState(w.Spawn) &&
            w.Tiles == tiles && w.BackgroundImages == backgrounds && w.Level == level &&
            w.Control == DialogControl([], 0, !prov.DisplayInput) &&
            w.Items == Made(objs, "item", ItemOf) && (forall i :: 0 <= i < |w.Items| ==> !w.Items[i].Collected) &&
            |w.NPCs| == |w.Dialogs| && (forall n :: 0 <= n < |w.Dialogs| ==> w.Dialogs[n] == FreshDialog) &&
            forall n :: 0 <= n < |w.NPCs| ==> w.NPCs[n].LinkedItem == ItemIndex(w.Items, w.NPCs[n].ReturnsItem)
  {
    var w := Built(level, tiles, backgrounds, objs, prov);
    GatherMakes(objs, prov);
    MadeCovers(objs, "item", ItemOf);
    forall i | 0 <= i < |w.Items| ensures !w.Items[i].Collected {
      var j :| 0 <= j < |objs| && objs[j].Type == "item" && w.Items[i] == ItemOf(objs[j]);
    }
  }

  /**
   * The portals of a new level are ordered by name; one that names no
   * destination stays unlinked, and one that does teleports next to the
   * portal kept under that name.
   */
  lemma NewPortals(level: string, tiles: seq<Tiles.StaticTile>, backgrounds: seq<Tiles.BackgroundImage>,
                   objs: seq<MapObject>, prov: Providers)
    requires New(level, tiles, backgrounds, objs, prov).Success?
    ensures var w := New(level, tiles, backgrounds, objs, prov).value;
            var keys := PortalKeys(Gather(objs, prov).value);
            |keys| == |w.Portals| && Sorting.SortedBy(keys, Sorting.StringLe) &&
            (forall k :: k in keys <==> exists i :: 0 <= i < |objs| && PortalNamed(objs[i], k)) &&
            (forall i :: 0 <= i < |keys| && w.Portals[i].PortalTo == "" ==> w.Portals[i].TeleportTo.None?) &&
            (forall i :: 0 <= i < |keys| && w.Portals[i].PortalTo != "" ==> w.Portals[i].PortalTo in keys) &&
            (forall i, j :: 0 <= i < |keys| && 0 <= j < |keys| && w.Portals[i].PortalTo != "" && w.Portals[i].PortalTo == keys[j] ==>
               w.Portals[i].TeleportTo == Some(w.Portals[j].Base.Origin.Add(TeleportOffset)))
  {
    var w := Built(level, tiles, backgrounds, objs, prov);
    var p := Gather(objs, prov).value;
    PortalListLinks(p);
    forall name ensures name in p.Portals <==> exists i :: 0 <= i < |objs| && PortalNamed(objs[i], name) {
      PortalKeptIff(objs, prov, name);
    }
  }

  /** The world a successful `New` assembles, with the facts of each stage. */
  lemma Built(level: string, tiles: seq<Tiles.StaticTile>, backgrounds: seq<Tiles.BackgroundImage>,
              objs: seq<MapObject>, prov: Providers) returns (w: World)
    requires New(level, tiles, backgrounds, objs, prov).Success?
    ensures PlayerSpawn(objs).Some? && Gather(objs, prov).Success?
    ensures var p := Gather(objs, prov).value;
            var npcItems := Links(p.Npcs, p.Items, NpcWants);
            npcItems.Success? && PortalList(p).Success? &&
            w == Assemble(level, tiles, backgrounds, PlayerSpawn(objs).value, p, npcItems.value, PortalList(p).value, prov)
    ensures w == New(level, tiles, backgrounds, objs, prov).value
  {
    w := New(level, tiles, backgrounds, objs, prov).value;
  }

  /** The linked portal list: in key order, each destination resolved next to the portal kept under its name. */
  lemma PortalListLinks(p: Placed)
    requires NamesListed(p) && PortalList(p).Success?
    requires forall k :: k in p.Portals ==> !p.Portals[k].Linked()
    ensures var ps := PortalList(p).value;
            var keys := PortalKeys(p);
            |keys| == |ps| &&
            (forall i :: 0 <= i < |keys| && ps[i].PortalTo == "" ==> ps[i].TeleportTo.None?) &&
            (forall i :: 0 <= i < |keys| && ps[i].PortalTo != "" ==> ps[i].PortalTo in keys) &&
            (forall i, j :: 0 <= i < |keys| && 0 <= j < |keys| && ps[i].PortalTo != "" && ps[i].PortalTo == keys[j] ==>
               ps[i].TeleportTo == Some(ps[j].Base.Origin.Add(TeleportOffset)))
  {
    var ps := PortalList(p).value;
    var keys := PortalKeys(p);
    forall i | 0 <= i < |keys| && ps[i].PortalTo == "" ensures ps[i].TeleportTo.None? {
      LinkedPortal(p, i);
    }
    forall i | 0 <= i < |keys| && ps[i].PortalTo != "" ensures ps[i].PortalTo in keys {
      LinkedPortal(p, i);
    }
    forall i, j | 0 <= i < |keys| && 0 <= j < |keys| && ps[i].PortalTo != "" && ps[i].PortalTo == keys[j]
      ensures ps[i].TeleportTo == Some(ps[j].Base.Origin.Add(TeleportOffset))
    {
      LinkedPortal(p, i);
      LinkedPortal(p, j);
    }
  }

  /** The portal at position `i` of the list is the one kept under the `i`-th key, linked. */
  lemma LinkedPortal(p: Placed, i: int)
    requires NamesListed(p) && PortalList(p).Success? && 0 <= i < |PortalKeys(p)|
    requires forall k :: k in p.Portals ==> !p.Portals[k].Linked()
    ensures var ps := PortalList(p).value;
            var m := p.Portals;
            var k := PortalKeys(p)[i];
            k in m && ps[i].PortalTo == m[k].PortalTo && ps[i].Base == m[k].Base &&
            (ps[i].PortalTo == "" ==> ps[i].TeleportTo.None?) &&
            (ps[i].PortalTo != "" ==> ps[i].PortalTo in m && ps[i].TeleportTo == Some(m[ps[i].PortalTo].Base.Origin.Add(TeleportOffset)))
  {
    var ps := PortalList(p).value;
    var k := PortalKeys(p)[i];
    assert ps[i] == LinkPortal(p.Portals, k);
  }

  // ---- Restoring from a snapshot -------------------------------------------

  /**
   * Why `NewFromSnapshot` fails: the level cannot be built, the snapshot
   * cannot be decoded, or the decoded items bring the engine down. A `null`
   * entry decodes to a nil item, and the inventory loop panics reading its
   * `Collected` (engine.go:400). An entry past the end of the slice decodes
   * to a fresh item whose base, tagged `json:"-"`, stays nil; the engine is
   * returned, and the first collision scan panics asking for its rectangle.
   */
  datatype RestoreError =
    | CreatingEngine(cause: BuildError)
    | ApplyingSnapshot(message: string)
    | NilItemPanic
    | BaselessItemPanic

  /**
   * The snapshot's JSON as the decoder sees the engine's only JSON field,
   * `items`: undecodable, without an `items` key, `null`, or an array of
   * item objects (each carrying whichever of its three keys it has).
   */
  datatype SnapshotData =
    | Unreadable(message: string)
    | ItemsAbsent
    | ItemsNull
    | ItemsArray(entries: seq<ItemEntry>)

  /** One entry of the `items` array: `null`, or an object with whichever keys it has. */
  datatype ItemEntry = NullEntry | ObjectEntry(patch: Items.ItemJsonPatch)

  predicate HasNull(entries: seq<ItemEntry>) {
    exists i :: 0 <= i < |entries| && entries[i].NullEntry?
  }

  /**
   * Decoding a JSON array into the existing slice of items: entry `i` is
   * decoded into the item already at `i`, keeping its base and image, and
   * the slice ends up exactly as long as the array. A `null` entry, or an
   * entry past the end of the slice, leaves an item the engine panics on.
   */
  function DecodeItems(items: seq<Items.Item>, entries: seq<ItemEntry>): (r: Result<seq<Items.Item>, RestoreError>)
    ensures r.Failure? <==> HasNull(entries) || |entries| > |items|
    ensures r.Failure? ==> r.error == if HasNull(entries) then NilItemPanic else BaselessItemPanic
    ensures r.Success? ==> |r.value| == |entries|
    ensures r.Success? ==> forall i :: 0 <= i < |entries| ==>
              entries[i].ObjectEntry? && r.value[i].Base == items[i].Base && r.value[i].Image == items[i].Image &&
              Items.ToJson(r.value[i]) == Items.ToJson(Items.ApplyJson(items[i], entries[i].patch))
  {
    if HasNull(entries) then Failure(NilItemPanic)
    else if |entries| > |items| then Failure(BaselessItemPanic)
    else Success(seq(|entries|, i requires 0 <= i < |entries| => Items.ApplyJson(items[i], entries[i].patch)))
  }

  /** Whether the snapshot decodes into items the engine can go on with. */
  predicate Decodes(items: seq<Items.Item>, s: SnapshotData) {
    !s.Unreadable? && (s.ItemsArray? ==> DecodeItems(items, s.entries).Success?)
  }

  /** The items of the slice whose `collected` flag is set, in slice order. */
  function CollectedItems(items: seq<Items.Item>): (c: seq<Items.Item>)
    ensures |c| <= |items|
    ensures forall x :: x in c <==> x in items && x.Collected
  {
    if items == [] then []
    else
      var n := |items| - 1;
      assert forall x :: x in items <==> x in items[..n] || x == items[n];
      CollectedItems(items[..n]) + (if items[n].Collected then [items[n]] else [])
  }

  /** The items the snapshot leaves the engine with. */
  function SnapshotItems(items: seq<Items.Item>, s: SnapshotData): seq<Items.Item>
    requires Decodes(items, s)
  {
    match s
    case ItemsAbsent => items
    case ItemsNull => []
    case ItemsArray(entries) => DecodeItems(items, entries).value
  }

  /**
   * Applying the snapshot to a built world, then appending every collected
   * item to the inventory, in the order of the items.
   */
  function Restore(w: World, s: SnapshotData): (r: Result<World, RestoreError>)
    ensures r.Failure? <==> s.Unreadable? || (s.ItemsArray? && (HasNull(s.entries) || |s.entries| > |w.Items|))
    ensures s.Unreadable? ==> r == Failure(ApplyingSnapshot(s.message))
    ensures s.ItemsArray? && HasNull(s.entries) ==> r == Failure(NilItemPanic)
    ensures s.ItemsArray? && !HasNull(s.entries) && |s.entries| > |w.Items| ==> r == Failure(BaselessItemPanic)
    ensures r.Success? ==> Decodes(w.Items, s) && r.value.Items == SnapshotItems(w.Items, s)
    ensures r.Success? ==> r.value.Player.Inventory == w.Player.Inventory + CollectedItems(r.value.Items)
    ensures r.Success? ==> r.value == w.(Items := r.value.Items, Player := w.Player.(Inventory := r.value.Player.Inventory))
  {
    if s.Unreadable? then Failure(ApplyingSnapshot(s.message))
    else if s.ItemsArray? && DecodeItems(w.Items, s.entries).Failure? then Failure(DecodeItems(w.Items, s.entries).error)
    else
      var items := SnapshotItems(w.Items, s);
      Success(w.(Items := items, Player := w.Player.(Inventory := w.Player.Inventory + CollectedItems(items))))
  }

  /** `NewFromSnapshot`: build the level, then restore the snapshot into it. */
  function NewFromSnapshot(level: string, tiles: seq<Tiles.StaticTile>, backgrounds: seq<Tiles.BackgroundImage>,
                           objs: seq<MapObject>, prov: Providers, s: SnapshotData): (r: Result<World, RestoreError>)
    ensures r.Failure? <==> New(level, tiles, backgrounds, objs, prov).Failure? || !Decodes(New(level, tiles, backgrounds, objs, prov).value.Items, s)
    ensures New(level, tiles, backgrounds, objs, prov).Failure? ==>
              r == Failure(CreatingEngine(New(level, tiles, backgrounds, objs, prov).error))
  {
    var e := New(level, tiles, backgrounds, objs, prov);
    if e.Failure? then Failure(CreatingEngine(e.error)) else Restore(e.value, s)
  }

  /** The JSON snapshot the engine writes of a world: every item with all three keys. */
  function SnapshotOf(w: World): (s: SnapshotData)
    ensures s.ItemsArray? && |s.entries| == |w.Items| && !HasNull(s.entries)
  {
    ItemsArray(seq(|w.Items|, i requires 0 <= i < |w.Items| => ObjectEntry(Items.Complete(Items.ToJson(w.Items[i])))))
  }

  /** Collecting over a concatenation concatenates: the inventory keeps the order of the items. */
  lemma {:induction false} CollectedItemsAppend(a: seq<Items.Item>, b: seq<Items.Item>)
    ensures CollectedItems(a + b) == CollectedItems(a) + CollectedItems(b)
    decreases |b|
  {
    if b == [] {
      assert a + b == a;
    } else {
      var n := |b| - 1;
      assert (a + b)[..|a + b| - 1] == a + b[..n];
      CollectedItemsAppend(a, b[..n]);
    }
  }

  /** Nothing collected, nothing in the inventory; everything collected, everything in it. */
  lemma CollectedItemsExtremes(items: seq<Items.Item>)
    ensures (forall i :: 0 <= i < |items| ==> !items[i].Collected) ==> CollectedItems(items) == []
    ensures (forall i :: 0 <= i < |items| ==> items[i].Collected) ==> CollectedItems(items) == items
  {
    if forall i :: 0 <= i < |items| ==> items[i].Collected {
      AllCollected(items);
    }
  }

  lemma {:induction false} AllCollected(items: seq<Items.Item>)
    requires forall i :: 0 <= i < |items| ==> items[i].Collected
    ensures CollectedItems(items) == items
    decreases |items|
  {
    if items != [] {
      var init := items[..|items| - 1];
      forall i | 0 <= i < |init| ensures init[i].Collected {
        assert init[i] == items[i];
      }
      AllCollected(init);
      AllCollectedStep(items);
    }
  }

  /** The inductive step of `AllCollected`. */
  lemma AllCollectedStep(items: seq<Items.Item>)
    requires items != [] && items[|items| - 1].Collected
    requires CollectedItems(items[..|items| - 1]) == items[..|items| - 1]
    ensures CollectedItems(items) == items
  {
    var n := |items| - 1;
    assert CollectedItems(items) == items[..n] + [items[n]];
    LastSplit(items);
  }

  lemma LastSplit<T>(s: seq<T>)
    requires s != []
    ensures s[..|s| - 1] + [s[|s| - 1]] == s
  {
  }

  /**
   * A restored engine is the built one with the snapshot's items, and its
   * inventory is exactly the collected items, in item order.
   */
  lemma RestoredInventory(level: string, tiles: seq<Tiles.StaticTile>, backgrounds: seq<Tiles.BackgroundImage>,
                          objs: seq<MapObject>, prov: Providers, s: SnapshotData)
    requires NewFromSnapshot(level, tiles, backgrounds, objs, prov, s).Success?
    ensures var w := New(level, tiles, backgrounds, objs, prov).value;
            var r := NewFromSnapshot(level, tiles, backgrounds, objs, prov, s).value;
            r.Items == SnapshotItems(w.Items, s) &&
            r.Player.Inventory == CollectedItems(r.Items) &&
            r == w.(Items := r.Items, Player := w.Player.(Inventory := r.Player.Inventory))
  {
    var w := Built(level, tiles, backgrounds, objs, prov);
    NewInitialState(level, tiles, backgrounds, objs, prov);
    assert w.Player.Inventory == [];
  }

  /**
   * Round trip: a snapshot written of any world whose items are the level's
   * items with changed flags restores exactly those items, and the
   * inventory of their collected ones.
   */
  lemma SnapshotRoundTrip(level: string, tiles: seq<Tiles.StaticTile>, backgrounds: seq<Tiles.BackgroundImage>,
                          objs: seq<MapObject>, prov: Providers, later: World)
    requires New(level, tiles, backgrounds, objs, prov).Success?
    requires var w := New(level, tiles, backgrounds, objs, prov).value;
             |later.Items| == |w.Items| &&
             forall i :: 0 <= i < |w.Items| ==> later.Items[i].Base == w.Items[i].Base && later.Items[i].Image == w.Items[i].Image
    ensures var r := NewFromSnapshot(level, tiles, backgrounds, objs, prov, SnapshotOf(later));
            r.Success? && r.value.Items == later.Items && r.value.Player.Inventory == CollectedItems(later.Items)
  {
    var w := New(level, tiles, backgrounds, objs, prov).value;
    var s := SnapshotOf(later);
    RestoredInventory(level, tiles, backgrounds, objs, prov, s);
    var d := DecodeItems(w.Items, s.entries).value;
    forall i | 0 <= i < |d| ensures d[i] == later.Items[i] {
      Items.JsonTransfers(w.Items[i], later.Items[i]);
    }
  }

  /**
   * A snapshot written by a level with more items than this one restores
   * into an item without a base, which the engine panics on.
   */
  lemma LargerSnapshotPanics(w: World, later: World)
    requires |later.Items| > |w.Items|
    ensures Restore(w, SnapshotOf(later)) == Failure(BaselessItemPanic)
  {
  }

  /** A `null` entry anywhere in the array makes the inventory loop panic, whatever else the array holds. */
  lemma NullEntryPanics(w: World, before: seq<ItemEntry>, after: seq<ItemEntry>)
    ensures Restore(w, ItemsArray(before + [NullEntry] + after)) == Failure(NilItemPanic)
  {
    assert (before + [NullEntry] + after)[|before|].NullEntry?;
  }

  /** Restoring keeps the NPC links valid unless the snapshot drops items an NPC is linked to. */
  lemma RestoreKeepsValid(w: World, s: SnapshotData)
    requires Valid(w) && Restore(w, s).Success?
    requires s.ItemsArray? ==> |s.entries| >= |w.Items|
    requires s.ItemsNull? ==> w.NPCs == []
    ensures Valid(Restore(w, s).value)
  {
    assert s.ItemsNull? || |SnapshotItems(w.Items, s)| >= |w.Items|;
  }
}
