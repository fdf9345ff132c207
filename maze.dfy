/**
 * The maze arcade program (`tasks/maze/maze.cpp`). It draws a 64 by 64
 * screen, then loops: it reads a frame of moves, walks the player through
 * the maze and prints the screen, until the player reaches the exit (WIN)
 * or steps on a cell it has already visited (LOSE).
 */
module Maze {
  import opened Bytes
  import MazeMap
  import Arcades

  const ScreenSize: int := 64

  /** The screen colours the program uses. */
  const SpaceColor: Byte := 15
  const WallColor: Byte := 0
  const PlayerColor: Byte := 9
  const EndColor: Byte := 10

  /** A position as (x, y): column, then row. */
  datatype Pos = Pos(X: int, Y: int)

  predicate InGrid(p: Pos) {
    0 <= p.X < ScreenSize && 0 <= p.Y < ScreenSize
  }

  predicate OnBorder(p: Pos) {
    p.X == 0 || p.X == ScreenSize - 1 || p.Y == 0 || p.Y == ScreenSize - 1
  }

  /** Where `MAZE` holds its only 'S' and its only 'E'. */
  const Start: Pos := Pos(40, 9)
  const End: Pos := Pos(34, 43)

  /** A '#' of `MAZE`, read off the row masks. */
  predicate IsWall(p: Pos)
    requires InGrid(p)
  {
    MazeMap.WallAt(p.X, p.Y)
  }

  /** The character of `MAZE` at `p`: '#', ' ' (a corridor), 'S' or 'E'. */
  function MazeChar(p: Pos): char
    requires InGrid(p)
  {
    if p == Start then 'S'
    else if p == End then 'E'
    else if IsWall(p) then '#'
    else ' '
  }

  /** So the player, who is never on a '#', never reaches the border either. */
  lemma CorridorIsInterior(p: Pos)
    requires InGrid(p) && MazeChar(p) != '#'
    ensures !OnBorder(p)
  {
    if OnBorder(p) {
      BorderIsWall(p);
    }
  }

  /** The maze is walled in: every border cell is '#'. */
  lemma BorderIsWall(p: Pos)
    requires InGrid(p) && OnBorder(p)
    ensures MazeChar(p) == '#'
  {
    MazeMap.SideWalls();
    MazeMap.TopAndBottomWalls();
  }

  type Screen = seq<seq<Byte>>

  predicate IsScreen(g: Screen) {
    |g| == ScreenSize && forall y :: 0 <= y < |g| ==> |g[y]| == ScreenSize
  }

  /** The screen with the cell at `p` set to `v`. */
  function Put(g: Screen, p: Pos, v: Byte): (h: Screen)
    requires IsScreen(g) && InGrid(p)
    ensures IsScreen(h) && h[p.Y][p.X] == v
    ensures forall q :: InGrid(q) && q != p ==> h[q.Y][q.X] == g[q.Y][q.X]
  {
    var row: seq<Byte> := g[p.Y][p.X := v];
    g[p.Y := row]
  }

  /** Everything the main loop keeps between frames. */
  datatype Run = Run(Screen: Screen, Player: Pos, Visited: set<Pos>, Won: bool, Lost: bool)

  /** The screen is 64 by 64 and the player is on it, off the border, so every move stays on the grid. */
  predicate Valid(r: Run) {
    IsScreen(r.Screen) && InGrid(r.Player) && !OnBorder(r.Player)
  }

  /** The player stands in a corridor: not on a '#'. */
  predicate InCorridor(r: Run)
    requires InGrid(r.Player)
  {
    MazeChar(r.Player) != '#'
  }

  /** The colour the set-up loop writes for a character; the 'S' cell is left at its zero value. */
  function InitColor(c: char): Byte {
    if c == 'S' then WallColor else if c == 'E' then EndColor else SpaceColor
  }

  /** The state before the first frame: the player on 'S', nothing visited. */
  function Initial(): (r: Run)
    ensures Valid(r) && InCorridor(r) && r.Player == Start && r.Visited == {} && !r.Won && !r.Lost
  {
    Run(seq(ScreenSize, y requires 0 <= y < ScreenSize =>
          seq(ScreenSize, x requires 0 <= x < ScreenSize =>
            if Pos(x, y) == Start then PlayerColor else InitColor(MazeChar(Pos(x, y))))),
        Start, {}, false, false)
  }

  /** Walls are not drawn: all of the first screen is space but the exit and the player. */
  lemma InitialScreen(p: Pos)
    requires InGrid(p)
    ensures Initial().Screen[p.Y][p.X] == (if p == Start then PlayerColor else if p == End then EndColor else SpaceColor)
  {
  }

  /** A delta moves at most one cell along each axis. */
  predicate Unit(d: Pos) {
    -1 <= d.X <= 1 && -1 <= d.Y <= 1
  }

  /** The `switch` on one move: each direction sets one component of the frame's delta. */
  function Steer(d: Pos, move: int): (e: Pos)
    ensures Unit(d) ==> Unit(e)
  {
    if move == 1 then d.(Y := -1)
    else if move == 2 then d.(Y := 1)
    else if move == 3 then d.(X := -1)
    else if move == 4 then d.(X := 1)
    else d
  }

  /**
   * One move with delta `d`: reaching the exit wins before the wall test;
   * a corridor cell is entered, and entering one visited before loses.
   */
  function Advance(r: Run, d: Pos): (t: Run)
    requires Valid(r) && Unit(d)
    ensures Valid(t) && (InCorridor(r) ==> InCorridor(t))
    ensures var np := Pos(r.Player.X + d.X, r.Player.Y + d.Y);
            InGrid(np) &&
            (t.Won <==> r.Won || np == End) &&
            (MazeChar(np) != '#' ==> t.Player == np && t.Visited == r.Visited + {np} && (t.Lost <==> r.Lost || np in r.Visited)) &&
            (MazeChar(np) == '#' ==> t.Player == r.Player && t.Visited == r.Visited && t.Lost == r.Lost)
    ensures t.Screen[t.Player.Y][t.Player.X] == PlayerColor
  {
    var np := Pos(r.Player.X + d.X, r.Player.Y + d.Y);
    var won := r.Won || np == End;
    if MazeChar(np) != '#' then
      CorridorIsInterior(np);
      Run(Put(Put(r.Screen, r.Player, SpaceColor), np, PlayerColor), np, r.Visited + {np}, won, r.Lost || np in r.Visited)
    else
      Run(Put(r.Screen, r.Player, PlayerColor), r.Player, r.Visited, won, r.Lost)
  }

  /** `Advance` spelled out by the two cases of the wall test. */
  lemma AdvanceCases(r: Run, d: Pos)
    requires Valid(r) && Unit(d)
    ensures var np := Pos(r.Player.X + d.X, r.Player.Y + d.Y);
            Advance(r, d) ==
              if MazeChar(np) != '#' then Run(Put(Put(r.Screen, r.Player, SpaceColor), np, PlayerColor), np, r.Visited + {np}, r.Won || np == End, r.Lost || np in r.Visited)
              else Run(Put(r.Screen, r.Player, PlayerColor), r.Player, r.Visited, r.Won || np == End, r.Lost)
  {
  }

  /** The moves of one frame, in order, starting from delta `d`. */
  function Moves(r: Run, d: Pos, moves: seq<int>): (t: Run)
    requires Valid(r) && Unit(d)
    ensures Valid(t)
    decreases |moves|
  {
    if moves == [] then r
    else
      var e := Steer(d, moves[0]);
      Moves(Advance(r, e), e, moves[1..])
  }

  /** A frame byte as the program's (signed) `char`. */
  function Signed(b: Byte): (v: int)
    ensures -128 <= v < 128
  {
    if b < 128 then b else b - 256
  }

  /** The values of `s` from `lo` up to 127, in ascending order: how a `std::set` is walked. */
  function Ascending(s: set<int>, lo: int): (r: seq<int>)
    requires -128 <= lo <= 128
    ensures forall v :: v in r <==> v in s && lo <= v < 128
    ensures forall i, j :: 0 <= i < j < |r| ==> r[i] < r[j]
    decreases 128 - lo
  {
    if lo == 128 then []
    else
      var rest := Ascending(s, lo + 1);
      assert forall i :: 0 <= i < |rest| ==> lo < rest[i] by {
        forall i | 0 <= i < |rest| ensures lo < rest[i] {
          assert rest[i] in rest;
        }
      }
      (if lo in s then [lo] else []) + rest
  }

  /**
   * The moves of a frame whose size field says `size` and whose body holds
   * `body`: the distinct values of the bytes read, plus a 0 when fewer than
   * `size` bytes could be read (the unread part of the buffer stays zero).
   */
  function FrameMoves(body: seq<Byte>, size: nat): (s: set<int>)
    requires |body| <= size
    ensures forall v :: v in s <==> (exists b | b in body :: Signed(b) == v) || (v == 0 && |body| < size)
  {
    (set b | b in body :: Signed(b)) + (if |body| < size then {0} else {})
  }

  /** What one pass of the main loop does: the program dies, or it writes `Out` and leaves `Rest` unread. */
  datatype Outcome = Crashed | Wrote(Out: seq<Byte>, Rest: seq<Byte>)

  const WinText: seq<Byte> := [87, 73, 78]
  const LoseText: seq<Byte> := [76, 79, 83, 69]

  /**
   * One pass of the main loop on the input `input`. After a win (checked
   * first) or a loss it writes only the marker and reads nothing; without
   * a four-byte size it throws; otherwise it reads the size and at most
   * that many bytes, runs the frame's moves and prints the screen.
   */
  function Iteration(r: Run, input: seq<Byte>): (res: (Outcome, Run))
    requires Valid(r)
    ensures Valid(res.1) && (InCorridor(r) ==> InCorridor(res.1))
  {
    if r.Won then (Wrote(WinText, input), r)
    else if r.Lost then (Wrote(LoseText, input), r)
    else if |input| < 4 then (Crashed, r)
    else
      var n := BodyLength(input);
      var body, size := input[4..4 + n], ReadBigEndian32(input[..4]);
      MovesStayInCorridor(r, Pos(0, 0), Ascending(FrameMoves(body, size), -128));
      var t := Frame(r, body, size);
      (Wrote(Arcades.Flatten(t.Screen), input[4 + n..]), t)
  }

  /** How many bytes of a frame's body are read: its size, or what is left of the input when that is shorter. */
  function BodyLength(input: seq<Byte>): (n: nat)
    requires |input| >= 4
    ensures 4 + n <= |input|
    ensures n <= ReadBigEndian32(input[..4])
    ensures n == ReadBigEndian32(input[..4]) || 4 + n == |input|
  {
    var size := ReadBigEndian32(input[..4]);
    if size < |input| - 4 then size else |input| - 4
  }

  /** The moves of one frame, with the delta reset to zero. */
  function Frame(r: Run, body: seq<Byte>, size: nat): (t: Run)
    requires Valid(r) && |body| <= size
    ensures Valid(t)
  {
    Moves(r, Pos(0, 0), Ascending(FrameMoves(body, size), -128))
  }

  // ---- Properties ----------------------------------------------------------

  /** After a win (checked first) or a loss a pass writes only the marker, changes nothing and reads nothing. */
  lemma FinishedPass(r: Run, input: seq<Byte>)
    requires Valid(r) && (r.Won || r.Lost)
    ensures Iteration(r, input) == (Wrote(if r.Won then WinText else LoseText, input), r)
  {
  }

  /** A pass of a running game without a four-byte size dies (`Failed to read size`). */
  lemma TruncatedSize(r: Run, input: seq<Byte>)
    requires Valid(r) && !r.Won && !r.Lost && |input| < 4
    ensures Iteration(r, input).0 == Crashed
  {
  }

  /**
   * A pass of a running game reads the size and at most that many bytes,
   * and prints exactly the new screen: 4096 colour bytes, row by row.
   */
  lemma FramePass(r: Run, input: seq<Byte>)
    requires Valid(r) && !r.Won && !r.Lost && |input| >= 4
    ensures var (o, t) := Iteration(r, input);
            o.Wrote? && o.Rest == input[4 + BodyLength(input)..] &&
            |o.Out| == ScreenSize * ScreenSize &&
            forall y, x :: 0 <= y < ScreenSize && 0 <= x < ScreenSize ==> o.Out[y * ScreenSize + x] == t.Screen[y][x]
  {
    var t := Iteration(r, input).1;
    Arcades.FlattenLayout(t.Screen);
  }

  /** Duplicates collapse and the moves of a frame run in ascending order: UP, DOWN, LEFT, RIGHT. */
  lemma FrameOrder(body: seq<Byte>, size: nat)
    requires |body| <= size
    ensures var order := Ascending(FrameMoves(body, size), -128);
            (forall i, j :: 0 <= i < j < |order| ==> order[i] < order[j]) &&
            (forall b :: b in body ==> Signed(b) in order) &&
            (forall v :: v in order ==> v == 0 || exists b | b in body :: Signed(b) == v)
  {
  }

  /**
   * The delta is reset once per frame, not per move: UP then LEFT in one
   * frame moves up, then diagonally up and left.
   */
  lemma DeltaCarriesOver(r: Run)
    requires Valid(r)
    ensures Moves(r, Pos(0, 0), [1, 3]) == Advance(Advance(r, Pos(0, -1)), Pos(-1, -1))
  {
    var r1 := Advance(r, Pos(0, -1));
    assert [1, 3][1..] == [3];
    assert Moves(r1, Pos(0, -1), [3]) == Moves(Advance(r1, Pos(-1, -1)), Pos(-1, -1), []);
  }

  /**
   * Staying put counts as a step: a zero delta re-enters the player's cell,
   * which loses once that cell was visited. The start is not visited at first.
   */
  lemma StandingStill(r: Run)
    requires Valid(r) && InCorridor(r)
    ensures Advance(r, Pos(0, 0)).Lost <==> r.Lost || r.Player in r.Visited
    ensures Advance(r, Pos(0, 0)).Visited == r.Visited + {r.Player}
  {
  }

  /** Two zero-delta moves from the start lose: the first visits the start, the second re-enters it. */
  lemma StartIsNotPreVisited()
    ensures !Advance(Initial(), Pos(0, 0)).Lost
    ensures Advance(Advance(Initial(), Pos(0, 0)), Pos(0, 0)).Lost
  {
    var r1 := Advance(Initial(), Pos(0, 0));
    assert r1.Player == Start && Start in r1.Visited;
  }

  /** What `k` passes of the main loop do to one input stream: the bytes written, the state, the unread input, and whether the program died. */
  datatype Trace = Trace(Out: seq<Byte>, Last: Run, Rest: seq<Byte>, Died: bool)

  function Passes(r: Run, input: seq<Byte>, k: nat): (tr: Trace)
    requires Valid(r)
    ensures Valid(tr.Last) && (InCorridor(r) ==> InCorridor(tr.Last))
    decreases k
  {
    if k == 0 then Trace([], r, input, false)
    else
      var res := Iteration(r, input);
      if res.0.Crashed? then Trace([], res.1, input, true)
      else
        var tr := Passes(res.1, res.0.Rest, k - 1);
        tr.(Out := res.0.Out + tr.Out)
  }

  /** The moves of a frame never put the player on a '#'. */
  lemma {:induction false} MovesStayInCorridor(r: Run, d: Pos, moves: seq<int>)
    requires Valid(r) && Unit(d)
    ensures InCorridor(r) ==> InCorridor(Moves(r, d, moves))
    decreases |moves|
  {
    if moves != [] {
      var e := Steer(d, moves[0]);
      MovesStayInCorridor(Advance(r, e), e, moves[1..]);
    }
  }

  /** `n` copies of `s`. */
  function Repeat(s: seq<Byte>, n: nat): (r: seq<Byte>)
    ensures |r| == n * |s|
  {
    if n == 0 then [] else s + Repeat(s, n - 1)
  }

  /** Once over, the game stays over: every later pass writes the same marker and reads nothing. */
  lemma {:induction false} OverIsFinal(r: Run, input: seq<Byte>, k: nat)
    requires Valid(r) && (r.Won || r.Lost)
    ensures Passes(r, input, k) == Trace(Repeat(if r.Won then WinText else LoseText, k), r, input, false)
    decreases k
  {
    if k > 0 {
      var m := if r.Won then WinText else LoseText;
      FinishedPass(r, input);
      OverIsFinal(r, input, k - 1);
      PassesOnce(r, input, k);
      assert Repeat(m, k) == m + Repeat(m, k - 1);
    }
  }

  /** The first of `k` passes, then the other `k - 1` unless it died. */
  lemma PassesOnce(r: Run, input: seq<Byte>, k: nat)
    requires Valid(r) && k > 0
    ensures var res := Iteration(r, input);
            Passes(r, input, k) ==
              if res.0.Crashed? then Trace([], res.1, input, true)
              else var tr := Passes(res.1, res.0.Rest, k - 1); tr.(Out := res.0.Out + tr.Out)
  {
  }

  /** A frame shorter than its size leaves nothing to read, so the next pass of a running game dies. */
  lemma ShortFrameEndsInput(r: Run, input: seq<Byte>)
    requires Valid(r) && !r.Won && !r.Lost && |input| >= 4
    requires ReadBigEndian32(input[..4]) > |input| - 4
    ensures Iteration(r, input).0.Rest == []
    ensures var t := Iteration(r, input).1;
            !t.Won && !t.Lost ==> Passes(r, input, 2).Died
  {
  }

  // ---- The program ---------------------------------------------------------

  class Program {
    const screen: array2<Byte>
    var player: Pos
    var visited: set<Pos>
    var won: bool
    var lost: bool

    ghost predicate Ready() {
      screen.Length0 == ScreenSize && screen.Length1 == ScreenSize
    }

    function Grid(): (g: Screen)
      requires Ready()
      reads screen
      ensures IsScreen(g)
      ensures forall y, x :: 0 <= y < ScreenSize && 0 <= x < ScreenSize ==> g[y][x] == screen[y, x]
    {
      seq(ScreenSize, y requires 0 <= y < ScreenSize reads screen =>
        seq(ScreenSize, x requires 0 <= x < ScreenSize reads screen => screen[y, x]))
    }

    function Current(): Run
      requires Ready()
      reads this, screen
    {
      Run(Grid(), player, visited, won, lost)
    }

    /** The set-up part of `main`: scans `MAZE`, finds 'S' and 'E', and draws the first screen. */
    constructor ()
      ensures Ready() && fresh(screen)
      ensures Current() == Initial()
    {
      var a := new Byte[ScreenSize, ScreenSize]((y, x) => 0);
      var start := Pos(0, 0);
      var i := 0;
      while i < ScreenSize
        invariant 0 <= i <= ScreenSize
        invariant forall y, x :: 0 <= y < ScreenSize && 0 <= x < ScreenSize ==>
                    a[y, x] == if y < i then InitColor(MazeChar(Pos(x, y))) else 0
        invariant start == if Start.Y < i then Start else Pos(0, 0)
      {
        start := DrawRow(a, i, start);
        i := i + 1;
      }
      a[start.Y, start.X] := PlayerColor;
      screen := a;
      player := start;
      visited := {};
      won := false;
      lost := false;
      new;
      forall y | 0 <= y < ScreenSize
        ensures Grid()[y] == Initial().Screen[y]
      {
      }
    }

    /** Row `i` of the set-up scan: draws its cells and notes where its 'S' is, if it has one. */
    static method DrawRow(a: array2<Byte>, i: int, start0: Pos) returns (start: Pos)
      requires a.Length0 == ScreenSize && a.Length1 == ScreenSize && 0 <= i < ScreenSize
      requires forall y, x :: 0 <= y < ScreenSize && 0 <= x < ScreenSize ==>
                 a[y, x] == if y < i then InitColor(MazeChar(Pos(x, y))) else 0
      modifies a
      ensures forall y, x :: 0 <= y < ScreenSize && 0 <= x < ScreenSize ==>
                a[y, x] == if y <= i then InitColor(MazeChar(Pos(x, y))) else 0
      ensures start == if Start.Y == i then Start else start0
    {
      start := start0;
      var j := 0;
      while j < ScreenSize
        invariant 0 <= j <= ScreenSize
        invariant forall y, x :: 0 <= y < ScreenSize && 0 <= x < ScreenSize ==>
                    a[y, x] == if y < i || (y == i && x < j) then InitColor(MazeChar(Pos(x, y))) else 0
        invariant start == if Start.Y == i && Start.X < j then Start else start0
      {
        var c := MazeChar(Pos(j, i));
        if c == '#' {
          a[i, j] := SpaceColor;
        } else if c == 'S' {
          start := Pos(j, i);
        } else if c == 'E' {
          a[i, j] := EndColor;
        } else {
          a[i, j] := SpaceColor;
        }
        j := j + 1;
      }
    }

    /** `print_screen`: every cell, row by row. */
    method PrintScreen() returns (out: seq<Byte>)
      requires Ready()
      ensures out == Arcades.Flatten(Grid()) && out == Arcades.Flatten(Current().Screen)
    {
      var g := Grid();
      out := [];
      var i := 0;
      while i < ScreenSize
        invariant 0 <= i <= ScreenSize
        invariant out == Arcades.Flatten(g[..i])
      {
        var j := 0;
        var row := [];
        while j < ScreenSize
          invariant 0 <= j <= ScreenSize
          invariant row == g[i][..j]
        {
          row := row + [screen[i, j]];
          j := j + 1;
        }
        assert g[..i + 1][..i] == g[..i];
        assert row == g[i];
        out := out + row;
        i := i + 1;
      }
      assert g[..i] == g;
    }

    /** The body of the loop over a frame's moves, after the delta has been updated. */
    method Step(d: Pos)
      requires Ready() && Valid(Current()) && Unit(d)
      modifies this, screen
      ensures Current() == Advance(old(Current()), d)
    {
      AdvanceCases(Current(), d);
      var np := Pos(player.X + d.X, player.Y + d.Y);
      if MazeChar(np) != '#' {
        Enter(np);
      } else {
        Bump(np);
      }
    }

    /** A move into a corridor cell `np`. */
    method Enter(np: Pos)
      requires Ready() && Valid(Current()) && InGrid(np)
      modifies this, screen
      ensures var r := old(Current());
              Current() == Run(Put(Put(r.Screen, r.Player, SpaceColor), np, PlayerColor), np, r.Visited + {np}, r.Won || np == End, r.Lost || np in r.Visited)
    {
      won := won || np == End;
      Set(player, SpaceColor);
      player := np;
      lost := lost || np in visited;
      visited := visited + {np};
      Set(player, PlayerColor);
    }

    /** A move against the wall at `np`: the player stays and is redrawn. */
    method Bump(np: Pos)
      requires Ready() && Valid(Current())
      modifies this, screen
      ensures var r := old(Current());
              Current() == Run(Put(r.Screen, r.Player, PlayerColor), r.Player, r.Visited, r.Won || np == End, r.Lost)
    {
      won := won || np == End;
      Set(player, PlayerColor);
    }

    /** One cell of the screen. */
    method Set(p: Pos, v: Byte)
      requires Ready() && InGrid(p)
      modifies screen
      ensures Grid() == Put(old(Grid()), p, v)
    {
      screen[p.Y, p.X] := v;
      GridsEqual(Grid(), Put(old(Grid()), p, v));
    }

    /** The loop over the moves of a frame, in order, with one delta for the whole frame. */
    method RunMoves(moves: seq<int>)
      requires Ready() && Valid(Current())
      modifies this, screen
      ensures Current() == Moves(old(Current()), Pos(0, 0), moves)
    {
      ghost var r := Current();
      var delta := Pos(0, 0);
      var i := 0;
      while i < |moves|
        invariant 0 <= i <= |moves|
        invariant Valid(Current()) && Unit(delta)
        invariant Moves(Current(), delta, moves[i..]) == Moves(r, Pos(0, 0), moves)
      {
        assert moves[i..][1..] == moves[i + 1..];
        delta := Steer(delta, moves[i]);
        Step(delta);
        i := i + 1;
      }
    }

    /** One pass of the main loop. */
    method Pass(input: seq<Byte>) returns (o: Outcome)
      requires Ready() && Valid(Current())
      modifies this, screen
      ensures (o, Current()) == Iteration(old(Current()), input)
    {
      if won {
        return Wrote(WinText, input);
      }
      if lost {
        return Wrote(LoseText, input);
      }
      if |input| < 4 {
        return Crashed;
      }
      o := PlayFrame(input);
    }

    /** A pass of a running game: one frame of moves, then the screen. */
    method PlayFrame(input: seq<Byte>) returns (o: Outcome)
      requires Ready() && Valid(Current()) && !won && !lost && |input| >= 4
      modifies this, screen
      ensures (o, Current()) == Iteration(old(Current()), input)
    {
      ghost var r := Current();
      var n := PlayMoves(input);
      var out := PrintScreen();
      o := Wrote(out, input[4 + n..]);
      FrameOutcome(r, input, o, Current());
    }

    /** The size, the body that is read, and the moves of one frame. */
    method PlayMoves(input: seq<Byte>) returns (n: nat)
      requires Ready() && Valid(Current()) && |input| >= 4
      modifies this, screen
      ensures n == BodyLength(input)
      ensures Current() == Frame(old(Current()), input[4..4 + BodyLength(input)], ReadBigEndian32(input[..4]))
    {
      var size := ReadBigEndian32(input[..4]);
      n := BodyLength(input);
      RunFrame(input[4..4 + n], size);
    }

    /** The moves of a frame whose body is `body` and whose size field says `size`. */
    method RunFrame(body: seq<Byte>, size: nat)
      requires Ready() && Valid(Current()) && |body| <= size
      modifies this, screen
      ensures Current() == Frame(old(Current()), body, size)
    {
      ghost var r := Current();
      var moves := CollectMoves(body, size);
      RunMoves(Ascending(moves, -128));
      FrameMoveOrder(r, body, size, Current());
    }
  }

  /** A frame runs its distinct moves in ascending order from a zero delta. */
  lemma FrameMoveOrder(r: Run, body: seq<Byte>, size: nat, t: Run)
    requires Valid(r) && |body| <= size
    requires t == Moves(r, Pos(0, 0), Ascending(FrameMoves(body, size), -128))
    ensures t == Frame(r, body, size)
  {
  }

  /** A running game's pass is its frame. */
  lemma FrameIteration(r: Run, input: seq<Byte>)
    requires Valid(r) && !r.Won && !r.Lost && |input| >= 4
    ensures var n := BodyLength(input);
            var t := Frame(r, input[4..4 + n], ReadBigEndian32(input[..4]));
            Iteration(r, input) == (Wrote(Arcades.Flatten(t.Screen), input[4 + n..]), t)
  {
  }

  /** What a pass of a running game writes and leaves. */
  lemma FrameOutcome(r: Run, input: seq<Byte>, o: Outcome, t: Run)
    requires Valid(r) && !r.Won && !r.Lost && |input| >= 4
    requires t == Frame(r, input[4..4 + BodyLength(input)], ReadBigEndian32(input[..4]))
    requires o == Wrote(Arcades.Flatten(t.Screen), input[4 + BodyLength(input)..])
    ensures (o, t) == Iteration(r, input)
  {
    FrameIteration(r, input);
  }

  /** The `for (char c : buffer) moves.insert(c)` loop over a buffer of `size` bytes whose first ones were read into `body`. */
  method CollectMoves(body: seq<Byte>, size: nat) returns (moves: set<int>)
    requires |body| <= size
    ensures moves == FrameMoves(body, size)
  {
    moves := {};
    var k := 0;
    while k < |body|
      invariant 0 <= k <= |body|
      invariant moves == set b | b in body[..k] :: Signed(b)
    {
      assert body[..k + 1] == body[..k] + [body[k]];
      moves := moves + {Signed(body[k])};
      k := k + 1;
    }
    assert body[..k] == body;
    if |body| < size {
      moves := moves + {0};
    }
  }

  /** Screens are equal when all their cells are. */
  lemma GridsEqual(g: Screen, h: Screen)
    requires IsScreen(g) && IsScreen(h)
    requires forall y, x :: 0 <= y < ScreenSize && 0 <= x < ScreenSize ==> g[y][x] == h[y][x]
    ensures g == h
  {
    forall y | 0 <= y < ScreenSize
      ensures g[y] == h[y]
    {
    }
  }
}
