/**
 * The player: a 32×32 body with speed and acceleration, health, an inventory
 * of collected items, grounding with a short "coyote time" after leaving the
 * ground during which a jump is still allowed, and the sprite animation counter.
 */
module Players {
  import opened Geometry
  import Object
  import Physics
  import Items

  const Width: real := 32.0
  const Height: real := 32.0
  const DefaultHealth: int := 100

  /** How many ticks after leaving the ground a jump is still allowed. */
  const CoyoteTicks: int := 5

  /** Ticks an animation frame is shown before the next one. */
  const FrameTicks: int := 10

  /** The animation names; `NoAnimation` is the empty name a new player starts with. */
  datatype Animation = NoAnimation | Standing | Running | Jumping | Falling

  /** The number of frames loaded for each animation. */
  function FrameCount(a: Animation): nat {
    match a
    case NoAnimation => 0
    case Standing => 1
    case Running => 2
    case Jumping => 1
    case Falling => 1
  }

  /** `onGround`, `onGroundCoyote` and `coyoteTick`; a `coyoteTick` of 0 means "not recorded". */
  datatype Grounding = Grounding(OnGround: bool, Coyote: bool, CoyoteTick: int) {

    /** The grounding after `SetOnGround(onGround, tick)`. */
    function SetOnGround(onGround: bool, tick: int): Grounding {
      if onGround then Grounding(true, true, 0)
      else if !Coyote then this.(OnGround := false)
      else
        var recorded := if CoyoteTick == 0 then tick else CoyoteTick;
        if tick - recorded > CoyoteTicks then Grounding(false, false, 0)
        else Grounding(false, true, recorded)
    }

    /** The grounding after a jump: the coyote flag and tick are cleared, `OnGround` is kept. */
    function ResetCoyote(): Grounding {
      this.(Coyote := false, CoyoteTick := 0)
    }
  }

  /** The animation counters. */
  datatype AnimationState = AnimationState(Name: Animation, Index: int, Duration: int)

  /** Everything the engine observes of a player. */
  datatype PlayerState = PlayerState(
    Base: Object.Base,
    Speed: Vector,
    Acceleration: Vector,
    Inventory: seq<Items.Item>,
    LooksRight: bool,
    Health: int,
    Ground: Grounding,
    Anim: AnimationState)
  {
    predicate IsDead() { Health <= 0 }

    function Rectangle(): Rectangle { Base.Rectangle() }
  }

  /** The animation an `Image` call selects. */
  function ChooseAnimation(coyote: bool, speed: Vector): (a: Animation)
    ensures a != NoAnimation && FrameCount(a) > 0
    ensures coyote ==> (a == Standing <==> speed.X == 0.0) && (a == Standing || a == Running)
    ensures !coyote ==> (a == Jumping <==> speed.Y <= 0.0) && (a == Jumping || a == Falling)
  {
    if coyote then (if speed.X == 0.0 then Standing else Running)
    else if speed.Y <= 0.0 then Jumping else Falling
  }

  /** The counters after an `Image` call. */
  function NextAnimation(s: AnimationState, coyote: bool, speed: Vector): AnimationState {
    var name := ChooseAnimation(coyote, speed);
    if name != s.Name then AnimationState(name, 0, 0)
    else if s.Duration >= FrameTicks then AnimationState(name, (s.Index + 1) % FrameCount(name), 0)
    else s.(Duration := s.Duration + 1)
  }

  /** The counters point at a loaded frame, unless no animation was chosen yet. */
  predicate AnimationValid(s: AnimationState) {
    s.Name != NoAnimation ==> 0 <= s.Index < FrameCount(s.Name)
  }

  class Player {
    var Base: Object.Base
    const Physical: Physics.Physical
    var Inventory: seq<Items.Item>
    var LooksRight: bool
    var Health: int
    var onGround: bool
    var onGroundCoyote: bool
    var coyoteTick: int
    var currentAnimationName: Animation
    var currentAnimationIndex: int
    var currentAnimationDuration: int

    function Ground(): Grounding
      reads this
    {
      Grounding(onGround, onGroundCoyote, coyoteTick)
    }

    function Anim(): AnimationState
      reads this
    {
      AnimationState(currentAnimationName, currentAnimationIndex, currentAnimationDuration)
    }

    function State(): PlayerState
      reads this, Physical
    {
      PlayerState(Base, Physical.Speed, Physical.Acceleration, Inventory, LooksRight, Health, Ground(), Anim())
    }

    /** `player.New`: a 32×32 player at `origin` with full health, an empty inventory and no motion. */
    constructor (origin: Point)
      ensures State() == NewState(origin)
      ensures fresh(Physical)
    {
      Base := Object.Base(origin, Width, Height);
      Physical := new Physics.Physical();
      Inventory := [];
      LooksRight := false;
      Health := DefaultHealth;
      onGround := false;
      onGroundCoyote := false;
      coyoteTick := 0;
      currentAnimationName := NoAnimation;
      currentAnimationIndex := 0;
      currentAnimationDuration := 0;
    }

    method SetOnGround(grounded: bool, tick: int)
      modifies this
      ensures State() == old(State()).(Ground := old(Ground()).SetOnGround(grounded, tick))
    {
      if grounded {
        coyoteTick := 0;
        onGround := true;
        onGroundCoyote := true;
        return;
      }
      onGround := false;
      if !onGroundCoyote {
        return;
      }
      if coyoteTick == 0 {
        coyoteTick := tick;
      }
      if tick - coyoteTick > CoyoteTicks {
        onGroundCoyote := false;
        coyoteTick := 0;
      }
    }

    function OnGround(): (b: bool)
      reads this
      ensures b == Ground().OnGround
    {
      onGround
    }

    function OnGroundCoyote(): (b: bool)
      reads this
      ensures b == Ground().Coyote
    {
      onGroundCoyote
    }

    method ResetCoyote()
      modifies this
      ensures State() == old(State()).(Ground := old(Ground()).ResetCoyote())
    {
      onGroundCoyote := false;
      coyoteTick := 0;
    }

    function IsDead(): (b: bool)
      reads this
      ensures b == State().IsDead()
    {
      Health <= 0
    }

    /** Marks the item collected and appends it to the inventory; returns the collected item. */
    method Collect(it: Items.Item) returns (collected: Items.Item)
      modifies this
      ensures collected == CollectedItem(it)
      ensures State() == old(State()).(Inventory := old(Inventory) + [collected])
    {
      collected := it.(Collected := true);
      Inventory := Inventory + [collected];
    }

    /** Picks the animation frame to draw and advances the counters; returns the frame shown. */
    method Image() returns (name: Animation, index: int)
      modifies this
      ensures State() == old(State()).(Anim := NextAnimation(old(Anim()), old(onGroundCoyote), old(Physical.Speed)))
      ensures name == currentAnimationName && index == currentAnimationIndex
    {
      var prev := currentAnimationName;
      if onGroundCoyote {
        if Physical.Speed.X == 0.0 {
          currentAnimationName := Standing;
        } else {
          currentAnimationName := Running;
        }
      } else {
        if Physical.Speed.Y <= 0.0 {
          currentAnimationName := Jumping;
        } else {
          currentAnimationName := Falling;
        }
      }
      if currentAnimationName != prev {
        currentAnimationIndex := 0;
        currentAnimationDuration := 0;
      } else if currentAnimationDuration >= FrameTicks {
        currentAnimationIndex := (currentAnimationIndex + 1) % FrameCount(currentAnimationName);
        currentAnimationDuration := 0;
      } else {
        currentAnimationDuration := currentAnimationDuration + 1;
      }
      name, index := currentAnimationName, currentAnimationIndex;
    }
  }

  /** The state of a new player at `origin`. */
  function NewState(origin: Point): (p: PlayerState)
    ensures p.Base.Width == 32.0 && p.Base.Height == 32.0 && p.Base.Origin == origin
    ensures p.Health == 100 && !p.IsDead() && p.Inventory == []
    ensures p.Speed == Zero && p.Acceleration == Zero
    ensures AnimationValid(p.Anim) && CoyoteConsistent(p.Ground)
  {
    PlayerState(Object.Base(origin, Width, Height), Zero, Zero, [], false, DefaultHealth,
                Grounding(false, false, 0), AnimationState(NoAnimation, 0, 0))
  }

  /** The item as `Collect` leaves it. */
  function CollectedItem(it: Items.Item): (c: Items.Item)
    ensures c.Collected
    ensures c.(Collected := it.Collected) == it
  {
    it.(Collected := true)
  }

  // ---- Grounding ------------------------------------------------------------

  /** A cleared coyote flag comes with a cleared tick. */
  predicate CoyoteConsistent(g: Grounding) {
    !g.Coyote ==> g.CoyoteTick == 0
  }

  /** Landing sets both flags and clears the tick; leaving the ground clears `OnGround`. */
  lemma SetOnGroundFlags(g: Grounding, tick: int)
    ensures g.SetOnGround(true, tick) == Grounding(true, true, 0)
    ensures !g.SetOnGround(false, tick).OnGround
    ensures !g.Coyote ==> g.SetOnGround(false, tick) == g.(OnGround := false)
    ensures g.Coyote && g.CoyoteTick == 0 ==> g.SetOnGround(false, tick) == Grounding(false, true, tick)
    ensures g.Coyote && g.CoyoteTick != 0 ==>
              g.SetOnGround(false, tick).Coyote == (tick - g.CoyoteTick <= CoyoteTicks)
  {
  }

  /** Both grounding updates keep a cleared coyote flag paired with a cleared tick. */
  lemma GroundingKeepsConsistency(g: Grounding, onGround: bool, tick: int)
    requires CoyoteConsistent(g)
    ensures CoyoteConsistent(g.SetOnGround(onGround, tick))
    ensures CoyoteConsistent(g.ResetCoyote())
    ensures g.ResetCoyote().OnGround == g.OnGround && !g.ResetCoyote().Coyote
  {
  }

  /** The grounding after one `SetOnGround(false, t)` per tick of `ticks`, in order. */
  function Airborne(g: Grounding, ticks: seq<int>): Grounding
    decreases |ticks|
  {
    if ticks == [] then g
    else Airborne(g, ticks[..|ticks| - 1]).SetOnGround(false, ticks[|ticks| - 1])
  }

  predicate Increasing(ticks: seq<int>) {
    forall i, j :: 0 <= i < j < |ticks| ==> ticks[i] < ticks[j]
  }

  /**
   * Coyote time: after landing, a run of ticks in the air starting at a
   * positive tick `t0` keeps a jump available exactly while the latest tick
   * is at most 5 after `t0`; once lost it stays lost.
   */
  lemma {:induction false} CoyoteWindow(ticks: seq<int>)
    requires |ticks| > 0 && ticks[0] > 0 && Increasing(ticks)
    ensures var g := Airborne(Grounding(true, true, 0), ticks);
            !g.OnGround &&
            (g.Coyote <==> ticks[|ticks| - 1] - ticks[0] <= CoyoteTicks) &&
            (g.Coyote ==> g.CoyoteTick == ticks[0]) &&
            (!g.Coyote ==> g.CoyoteTick == 0)
    decreases |ticks|
  {
    var n := |ticks|;
    if n == 1 {
      assert ticks[..0] == [];
    } else {
      var pre := ticks[..n - 1];
      assert pre[0] == ticks[0];
      assert Increasing(pre);
      CoyoteWindow(pre);
      assert pre[|pre| - 1] == ticks[n - 2];
      assert ticks[n - 2] < ticks[n - 1];
    }
  }

  // ---- Animation ------------------------------------------------------------

  /** `Image` always points at a loaded frame of the chosen animation. */
  lemma NextAnimationValid(s: AnimationState, coyote: bool, speed: Vector)
    requires AnimationValid(s)
    ensures var t := NextAnimation(s, coyote, speed);
            t.Name == ChooseAnimation(coyote, speed) && AnimationValid(t) && t.Name != NoAnimation
  {
  }

  /** A change of animation restarts it; otherwise the frame advances only when the duration reached 10. */
  lemma NextAnimationSteps(s: AnimationState, coyote: bool, speed: Vector)
    requires AnimationValid(s)
    ensures var t := NextAnimation(s, coyote, speed);
            (ChooseAnimation(coyote, speed) != s.Name ==> t.Index == 0 && t.Duration == 0) &&
            (ChooseAnimation(coyote, speed) == s.Name && s.Duration < FrameTicks ==>
               t.Index == s.Index && t.Duration == s.Duration + 1) &&
            (ChooseAnimation(coyote, speed) == s.Name && s.Duration >= FrameTicks ==>
               t.Duration == 0 && t.Index == (s.Index + 1) % FrameCount(s.Name))
  {
  }

  /** Running alternates between its two frames every eleventh call. */
  lemma RunningAlternates(s: AnimationState, speed: Vector)
    requires s.Name == Running && 0 <= s.Index < 2 && s.Duration == FrameTicks && speed.X != 0.0
    ensures NextAnimation(s, true, speed) == AnimationState(Running, 1 - s.Index, 0)
  {
  }
}
