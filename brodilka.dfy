/**
 * The `brodilka` arcade (`internal/resources/arcades/brodilka.py`): the player
 * walks a 64 by 64 field from the top-left corner, 32 enemies and a target
 * wander at random, every cell counts the player's visits, and each pass of
 * the main loop reads one frame of keys and writes one screen of colour
 * indices. Positions are (row, column) pairs, as in the program.
 */
module Brodilka {
  import opened Bytes
  import opened Wrappers
  import Arcades

  const Size: int := 64
  const EnemyCount: nat := 32
  const TargetColor: Byte := 118
  const EnemyColor: Byte := 160

  datatype Cell = Cell(Row: int, Col: int)

  predicate InGrid(p: Cell) {
    0 <= p.Row < Size && 0 <= p.Col < Size
  }

  function Add(p: Cell, d: Cell): Cell {
    Cell(p.Row + d.Row, p.Col + d.Col)
  }

  /** A delta of at most one cell along each axis, as `gen_delta` draws. */
  predicate Unit(d: Cell) {
    -1 <= d.Row <= 1 && -1 <= d.Col <= 1
  }

  // ---- Reading a frame -----------------------------------------------------

  datatype Move = Up | Down | Left | Right

  /** `Move(key)`: the enum value 1 to 4, or the ValueError the loop skips. */
  function MoveOf(key: Byte): (m: Option<Move>)
    ensures m.Some? <==> 1 <= key <= 4
  {
    if key == 1 then Some(Up)
    else if key == 2 then Some(Down)
    else if key == 3 then Some(Left)
    else if key == 4 then Some(Right)
    else None
  }

  /** `int.from_bytes(b, "big")` for any number of bytes. */
  function FromBigEndian(b: seq<Byte>): nat {
    if b == [] then 0 else FromBigEndian(b[..|b| - 1]) * 256 + b[|b| - 1]
  }

  /** On four bytes `int.from_bytes` is the 32-bit network-order count the engine writes. */
  lemma FromBigEndian32(b: seq<Byte>)
    requires |b| == 4
    ensures FromBigEndian(b) == ReadBigEndian32(b)
  {
    assert b[..1][..0] == [];
    assert FromBigEndian(b[..1]) == b[0];
    assert b[..2][..1] == b[..1];
    assert FromBigEndian(b[..2]) == b[0] as int * 256 + b[1];
    assert b[..3][..2] == b[..2];
    assert FromBigEndian(b[..3]) == (b[0] as int * 256 + b[1]) * 256 + b[2];
    assert b[..4][..3] == b[..3];
    assert b[..4] == b;
  }

  function Min(a: int, b: int): int {
    if a < b then a else b
  }

  /** `read(4)` returns fewer bytes only at the end of the input. */
  function HeaderLength(input: seq<Byte>): nat {
    Min(4, |input|)
  }

  function FrameSize(input: seq<Byte>): nat {
    FromBigEndian(input[..HeaderLength(input)])
  }

  /** The keys `read(size)` returns: none for a zero size, else up to `size` bytes. */
  function KeysLength(input: seq<Byte>): (n: nat)
    ensures HeaderLength(input) + n <= |input|
    ensures n <= FrameSize(input)
  {
    if FrameSize(input) == 0 then 0 else Min(FrameSize(input), |input| - HeaderLength(input))
  }

  function Keys(input: seq<Byte>): seq<Byte> {
    input[HeaderLength(input)..HeaderLength(input) + KeysLength(input)]
  }

  /** The set the loop over the keys builds. */
  function KeyMoves(keys: seq<Byte>): (s: set<Move>)
    ensures forall m :: m in s <==> exists k | k in keys :: MoveOf(k) == Some(m)
  {
    set k | k in keys && MoveOf(k).Some? :: MoveOf(k).value
  }

  /** `read_input`: the moves of one frame and the input left after it. */
  function Request(input: seq<Byte>): (r: (set<Move>, seq<Byte>))
    ensures |r.1| <= |input| && r.1 == input[|input| - |r.1|..]
    ensures FrameSize(input) == 0 ==> r.0 == {}
    ensures |input| < 4 ==> r.1 == []
  {
    (KeyMoves(Keys(input)), input[HeaderLength(input) + KeysLength(input)..])
  }

  method ReadInput(input: seq<Byte>) returns (moves: set<Move>, rest: seq<Byte>)
    ensures (moves, rest) == Request(input)
  {
    var h := if |input| < 4 then |input| else 4;
    var size := FromBigEndian(input[..h]);
    if size == 0 {
      return {}, input[h..];
    }
    var n := if size < |input| - h then size else |input| - h;
    var keys := input[h..h + n];
    moves := {};
    var i := 0;
    while i < |keys|
      invariant 0 <= i <= |keys|
      invariant moves == KeyMoves(keys[..i])
    {
      assert keys[..i + 1] == keys[..i] + [keys[i]];
      var m := MoveOf(keys[i]);
      if m.Some? {
        moves := moves + {m.value};
      }
      i := i + 1;
    }
    assert keys[..i] == keys;
    rest := input[h + n..];
  }

  /** A frame of a four-byte count and that many keys reads back as exactly those keys. */
  lemma FrameRead(keys: seq<Byte>, rest: seq<Byte>)
    requires |keys| < 0x1_0000_0000
    ensures Request(BigEndian32(|keys|) + keys + rest) == (KeyMoves(keys), rest)
  {
    var input := BigEndian32(|keys|) + keys + rest;
    assert input[..4] == BigEndian32(|keys|);
    FromBigEndian32(input[..4]);
    assert FrameSize(input) == |keys|;
    assert Keys(input) == keys;
  }

  // ---- The delta of a frame ------------------------------------------------

  function Step(m: Move): Cell {
    match m
    case Up => Cell(-1, 0)
    case Down => Cell(1, 0)
    case Left => Cell(0, -1)
    case Right => Cell(0, 1)
  }

  function Count(b: bool): int {
    if b then 1 else 0
  }

  /** The sum of the steps of a set of moves, which its order cannot change. */
  function Delta(moves: set<Move>): Cell {
    Cell(Count(Down in moves) - Count(Up in moves), Count(Right in moves) - Count(Left in moves))
  }

  /** The loop that sums the steps of the frame's moves, in whatever order the set yields them. */
  method SumSteps(moves: set<Move>) returns (delta: Cell)
    ensures delta == Delta(moves)
  {
    delta := Cell(0, 0);
    var left := moves;
    while left != {}
      invariant left <= moves
      invariant delta == Delta(moves - left)
      decreases |left|
    {
      var m :| m in left;
      AddStep(moves - left, m);
      assert moves - (left - {m}) == (moves - left) + {m};
      delta := Add(delta, Step(m));
      left := left - {m};
    }
    assert moves - left == moves;
  }

  /** Adding a move not yet summed adds its step. */
  lemma AddStep(s: set<Move>, m: Move)
    requires m !in s
    ensures Delta(s + {m}) == Add(Delta(s), Step(m))
  {
    RowStep(s, m);
    ColStep(s, m);
  }

  lemma RowStep(s: set<Move>, m: Move)
    requires m !in s
    ensures Delta(s + {m}).Row == Delta(s).Row + Step(m).Row
  {
  }

  lemma ColStep(s: set<Move>, m: Move)
    requires m !in s
    ensures Delta(s + {m}).Col == Delta(s).Col + Step(m).Col
  {
  }

  /** Opposite keys cancel, and a frame moves the player at most one cell along each axis. */
  lemma DeltaBounds(moves: set<Move>)
    ensures Unit(Delta(moves))
    ensures Up in moves && Down in moves ==> Delta(moves).Row == 0
    ensures Left in moves && Right in moves ==> Delta(moves).Col == 0
    ensures Delta(moves) == Cell(0, 0) <==> (Up in moves <==> Down in moves) && (Left in moves <==> Right in moves)
  {
  }

  /** `calc_move`: the shifted position, or the old one when that would leave the field. */
  function CalcMove(pos: Cell, delta: Cell): (r: Cell)
    ensures InGrid(pos) ==> InGrid(r)
    ensures r != pos ==> r == Add(pos, delta) && InGrid(r)
    ensures InGrid(Add(pos, delta)) ==> r == Add(pos, delta)
  {
    var t := Add(pos, delta);
    if t.Row < 0 || t.Row >= Size || t.Col < 0 || t.Col >= Size then pos else t
  }

  // ---- The state of the game ----------------------------------------------

  type Field = seq<seq<Byte>>

  datatype World = World(Field: Field, Player: Cell, Enemies: seq<Cell>, Target: Cell, Lost: bool, Won: bool)

  predicate Valid(w: World) {
    Arcades.IsScreen(w.Field) && InGrid(w.Player) && InGrid(w.Target) &&
    |w.Enemies| == EnemyCount && forall i :: 0 <= i < |w.Enemies| ==> InGrid(w.Enemies[i])
  }

  /** The module-level set-up: a zero field, the player in the corner, and the drawn target and enemies. */
  function Initial(target: Cell, enemies: seq<Cell>): (w: World)
    requires InGrid(target) && |enemies| == EnemyCount
    requires forall i :: 0 <= i < |enemies| ==> InGrid(enemies[i])
    ensures Valid(w) && !w.Lost && !w.Won
    ensures w.Player == Cell(0, 0) && w.Target == target && w.Enemies == enemies
    ensures forall r, c :: 0 <= r < Size && 0 <= c < Size ==> w.Field[r][c] == 0
  {
    World(seq(Size, r => seq(Size, c => 0)), Cell(0, 0), enemies, target, false, false)
  }

  function Put(g: Field, p: Cell, v: Byte): (h: Field)
    requires Arcades.IsScreen(g) && InGrid(p)
    ensures Arcades.IsScreen(h)
    ensures forall r, c :: 0 <= r < Size && 0 <= c < Size ==> h[r][c] == if Cell(r, c) == p then v else g[r][c]
  {
    var row: seq<Byte> := g[p.Row][p.Col := v];
    g[p.Row := row]
  }

  /** One more visit of cell `p`, counted modulo 256. */
  function Visit(g: Field, p: Cell): Field
    requires Arcades.IsScreen(g) && InGrid(p)
  {
    Put(g, p, Inc(g[p.Row][p.Col]))
  }

  /** `(count + 1) % 256`. */
  function Inc(v: Byte): Byte {
    (v + 1) % 256
  }

  /** The player's part of a pass: if it moves, the new cell is checked for enemies and counted. */
  function PlayerMoves(w: World, next: Cell): (n: World)
    requires Valid(w) && InGrid(next)
    ensures Valid(n)
  {
    if next == w.Player then w
    else w.(Player := next, Lost := w.Lost || next in w.Enemies, Field := Visit(w.Field, next))
  }

  /** The loop that moves every enemy by its own delta. */
  function MoveEnemies(enemies: seq<Cell>, deltas: seq<Cell>): (es: seq<Cell>)
    requires |deltas| == |enemies|
    ensures |es| == |enemies|
    ensures forall i :: 0 <= i < |es| ==> es[i] == CalcMove(enemies[i], deltas[i])
  {
    seq(|enemies|, i requires 0 <= i < |enemies| => CalcMove(enemies[i], deltas[i]))
  }

  /** What a pass of the main loop does to a running game, given the random deltas of the enemies and the target. */
  function Round(w: World, delta: Cell, enemyDeltas: seq<Cell>, targetDelta: Cell): (n: World)
    requires Valid(w) && |enemyDeltas| == |w.Enemies|
    ensures Valid(n)
  {
    var w1 := PlayerMoves(w, CalcMove(w.Player, delta));
    var es := MoveEnemies(w1.Enemies, enemyDeltas);
    var w2 := w1.(Enemies := es, Lost := w1.Lost || w1.Player in es);
    var t := CalcMove(w2.Target, targetDelta);
    w2.(Target := t, Won := w2.Won || w2.Player == t)
  }

  // ---- Screens -------------------------------------------------------------

  /** The enemies drawn over a screen, later ones last. */
  function PaintEnemies(g: Field, enemies: seq<Cell>): (h: Field)
    requires Arcades.IsScreen(g) && forall i :: 0 <= i < |enemies| ==> InGrid(enemies[i])
    ensures Arcades.IsScreen(h)
  {
    if enemies == [] then g
    else Put(PaintEnemies(g, enemies[..|enemies| - 1]), enemies[|enemies| - 1], EnemyColor)
  }

  /** The screen of a pass: the visit counts, the target over them and the enemies over that. */
  function Shown(w: World): (g: Field)
    requires Valid(w)
    ensures Arcades.IsScreen(g)
  {
    PaintEnemies(Put(w.Field, w.Target, TargetColor), w.Enemies)
  }

  /** A cell of the screen shows an enemy if one stands there, else the target, else its visit count. */
  lemma {:induction false} PaintedCell(g: Field, enemies: seq<Cell>, p: Cell)
    requires Arcades.IsScreen(g) && InGrid(p) && forall i :: 0 <= i < |enemies| ==> InGrid(enemies[i])
    ensures PaintEnemies(g, enemies)[p.Row][p.Col] == if p in enemies then EnemyColor else g[p.Row][p.Col]
  {
    if enemies != [] {
      var n := |enemies| - 1;
      PaintedCell(g, enemies[..n], p);
      assert p in enemies <==> p in enemies[..n] || p == enemies[n] by {
        assert enemies == enemies[..n] + [enemies[n]];
      }
    }
  }

  lemma ShownCell(w: World, p: Cell)
    requires Valid(w) && InGrid(p)
    ensures Shown(w)[p.Row][p.Col] ==
              if p in w.Enemies then EnemyColor else if p == w.Target then TargetColor else w.Field[p.Row][p.Col]
  {
    PaintedCell(Put(w.Field, w.Target, TargetColor), w.Enemies, p);
  }

  /** The first row with `text` over its first cells. */
  function Caption(g: Field, text: seq<Byte>): (h: Field)
    requires Arcades.IsScreen(g) && |text| <= Size
    ensures Arcades.IsScreen(h)
    ensures forall c :: 0 <= c < |text| ==> h[0][c] == text[c]
    ensures forall r, c :: 0 <= r < Size && 0 <= c < Size && (r > 0 || c >= |text|) ==> h[r][c] == g[r][c]
  {
    var row: seq<Byte> := text + g[0][|text|..];
    g[0 := row]
  }

  const LoseText: seq<Byte> := [76, 79, 83, 69]
  const WonText: seq<Byte> := [87, 79, 78]
  const WinText: seq<Byte> := [87, 73, 78]

  /** `lose`: the field with "LOSE" over the first four cells. */
  function LoseScreen(g: Field): Field
    requires Arcades.IsScreen(g)
  {
    Caption(g, LoseText)
  }

  /** `win` as the program has it: the field with "WON" over the first three cells. */
  function WinScreenAsWritten(g: Field): Field
    requires Arcades.IsScreen(g)
  {
    Caption(g, WonText)
  }

  /** `win` as the engine expects it: the field with "WIN" over the first three cells. */
  function WinScreen(g: Field): Field
    requires Arcades.IsScreen(g)
  {
    Caption(g, WinText)
  }

  // ---- A pass of the main loop ---------------------------------------------

  /** What a pass writes, the input it leaves, whether the program then exits, and the new state. */
  datatype Outcome = Outcome(Out: seq<Byte>, Rest: seq<Byte>, Exited: bool, Next: World)

  /**
   * One pass of `while True`: the frame is read first; a game lost or won in
   * an earlier pass then writes its last screen (a loss before a win) and
   * exits; otherwise the round is played and its screen written.
   */
  function Iteration(w: World, input: seq<Byte>, enemyDeltas: seq<Cell>, targetDelta: Cell): (p: Outcome)
    requires Valid(w) && |enemyDeltas| == |w.Enemies|
    ensures Valid(p.Next)
  {
    var (moves, rest) := Request(input);
    if w.Lost then Outcome(Arcades.Flatten(LoseScreen(w.Field)), rest, true, w)
    else if w.Won then Outcome(Arcades.Flatten(WinScreenAsWritten(w.Field)), rest, true, w)
    else
      var n := Round(w, Delta(moves), enemyDeltas, targetDelta);
      Outcome(Arcades.Flatten(Shown(n)), rest, false, n)
  }

  // ---- Properties ----------------------------------------------------------

  /** Every pass writes one whole screen of 4096 bytes, row by row. */
  lemma PassScreen(w: World, input: seq<Byte>, enemyDeltas: seq<Cell>, targetDelta: Cell)
    requires Valid(w) && |enemyDeltas| == |w.Enemies|
    ensures var p := Iteration(w, input, enemyDeltas, targetDelta);
            |p.Out| == Size * Size &&
            (!p.Exited ==> forall r, c :: 0 <= r < Size && 0 <= c < Size ==> p.Out[r * Size + c] == Shown(p.Next)[r][c])
  {
    var p := Iteration(w, input, enemyDeltas, targetDelta);
    if w.Lost {
      Arcades.FlattenLayout(LoseScreen(w.Field));
    } else if w.Won {
      Arcades.FlattenLayout(WinScreenAsWritten(w.Field));
    } else {
      Arcades.FlattenLayout(Shown(p.Next));
    }
  }

  /** A lost game writes the losing screen, even when it was also won and whatever the frame holds. */
  lemma LossComesFirst(w: World, input: seq<Byte>, enemyDeltas: seq<Cell>, targetDelta: Cell)
    requires Valid(w) && |enemyDeltas| == |w.Enemies| && w.Lost
    ensures var p := Iteration(w, input, enemyDeltas, targetDelta);
            p.Exited && p.Next == w && p.Out == Arcades.Flatten(LoseScreen(w.Field)) && p.Rest == Request(input).1
  {
  }

  /**
   * The verdict comes one pass late: the pass that loses or wins still writes
   * the board, and the next pass, whatever it reads, writes the verdict and exits.
   */
  lemma VerdictOnNextPass(w: World, input: seq<Byte>, enemyDeltas: seq<Cell>, targetDelta: Cell, input2: seq<Byte>, enemyDeltas2: seq<Cell>, targetDelta2: Cell)
    requires Valid(w) && |enemyDeltas| == |w.Enemies| && !w.Lost && !w.Won
    requires |enemyDeltas2| == EnemyCount
    ensures var p := Iteration(w, input, enemyDeltas, targetDelta);
            !p.Exited &&
            ((p.Next.Lost || p.Next.Won) ==>
               var q := Iteration(p.Next, input2, enemyDeltas2, targetDelta2);
               q.Exited && q.Next == p.Next &&
               q.Out == Arcades.Flatten(if p.Next.Lost then LoseScreen(p.Next.Field) else WinScreenAsWritten(p.Next.Field)))
  {
  }

  /** A cell's count goes up by one exactly when the player moves onto it; nothing else touches the counts. */
  lemma VisitCounts(w: World, moves: set<Move>, enemyDeltas: seq<Cell>, targetDelta: Cell)
    requires Valid(w) && |enemyDeltas| == |w.Enemies|
    ensures var n := Round(w, Delta(moves), enemyDeltas, targetDelta);
            forall r, c :: 0 <= r < Size && 0 <= c < Size ==>
              n.Field[r][c] == if n.Player != w.Player && Cell(r, c) == n.Player then Inc(w.Field[r][c]) else w.Field[r][c]
  {
  }

  /** The player moves by the frame's delta, or not at all when that would leave the field. */
  lemma PlayerMove(w: World, moves: set<Move>, enemyDeltas: seq<Cell>, targetDelta: Cell)
    requires Valid(w) && |enemyDeltas| == |w.Enemies|
    ensures var n := Round(w, Delta(moves), enemyDeltas, targetDelta);
            (n.Player == Add(w.Player, Delta(moves)) || n.Player == w.Player) &&
            (InGrid(Add(w.Player, Delta(moves))) <==> n.Player == Add(w.Player, Delta(moves))) &&
            Unit(Cell(n.Player.Row - w.Player.Row, n.Player.Col - w.Player.Col))
  {
    DeltaBounds(moves);
  }

  /** Enemies and the target each move at most one cell along each axis and stay on the field. */
  lemma OthersMove(w: World, moves: set<Move>, enemyDeltas: seq<Cell>, targetDelta: Cell)
    requires Valid(w) && |enemyDeltas| == |w.Enemies|
    requires Unit(targetDelta) && forall i :: 0 <= i < |enemyDeltas| ==> Unit(enemyDeltas[i])
    ensures var n := Round(w, Delta(moves), enemyDeltas, targetDelta);
            Unit(Cell(n.Target.Row - w.Target.Row, n.Target.Col - w.Target.Col)) &&
            forall i :: 0 <= i < |w.Enemies| ==> Unit(Cell(n.Enemies[i].Row - w.Enemies[i].Row, n.Enemies[i].Col - w.Enemies[i].Col))
  {
  }

  /**
   * The game is lost when it was lost before, when the player steps onto an
   * enemy, or when an enemy steps onto the player; standing still among the
   * enemies' old places loses nothing.
   */
  lemma LostRule(w: World, moves: set<Move>, enemyDeltas: seq<Cell>, targetDelta: Cell)
    requires Valid(w) && |enemyDeltas| == |w.Enemies|
    ensures var n := Round(w, Delta(moves), enemyDeltas, targetDelta);
            n.Lost <==> w.Lost || (n.Player != w.Player && n.Player in w.Enemies) || n.Player in n.Enemies
  {
  }

  /** The game is won when it was won before or when the target, after its move, stands on the player. */
  lemma WonRule(w: World, moves: set<Move>, enemyDeltas: seq<Cell>, targetDelta: Cell)
    requires Valid(w) && |enemyDeltas| == |w.Enemies|
    ensures var n := Round(w, Delta(moves), enemyDeltas, targetDelta);
            n.Won <==> w.Won || n.Player == n.Target
  {
  }

  /** A frame with no keys, or only opposite ones, leaves the player and the counts where they were. */
  lemma StandingStill(w: World, moves: set<Move>, enemyDeltas: seq<Cell>, targetDelta: Cell)
    requires Valid(w) && |enemyDeltas| == |w.Enemies|
    requires (Up in moves <==> Down in moves) && (Left in moves <==> Right in moves)
    ensures var n := Round(w, Delta(moves), enemyDeltas, targetDelta);
            n.Player == w.Player && n.Field == w.Field
  {
    DeltaBounds(moves);
  }

  // ---- The program ---------------------------------------------------------

  /** `write_output`: the rows of a screen, one after the other. */
  method WriteOutput(screen: Field) returns (b: seq<Byte>)
    ensures b == Arcades.Flatten(screen)
  {
    b := [];
    var i := 0;
    while i < |screen|
      invariant 0 <= i <= |screen|
      invariant b == Arcades.Flatten(screen[..i])
    {
      assert screen[..i + 1][..i] == screen[..i];
      b := b + screen[i];
      i := i + 1;
    }
    assert screen[..i] == screen;
  }

  /** The module's state: the field counts in place; the positions and flags are rebound. */
  class Game {
    const field: array2<Byte>
    var player: Cell
    var enemies: seq<Cell>
    var target: Cell
    var lost: bool
    var won: bool

    ghost predicate Ready() {
      field.Length0 == Size && field.Length1 == Size
    }

    function Grid(): (g: Field)
      requires Ready()
      reads field
      ensures Arcades.IsScreen(g)
      ensures forall r, c :: 0 <= r < Size && 0 <= c < Size ==> g[r][c] == field[r, c]
    {
      seq(Size, r requires 0 <= r < Size reads field =>
        seq(Size, c requires 0 <= c < Size reads field => field[r, c]))
    }

    function Current(): World
      requires Ready()
      reads this, field
    {
      World(Grid(), player, enemies, target, lost, won)
    }

    /** The set-up before the loop, with the drawn target and enemies as parameters. */
    constructor (target0: Cell, enemies0: seq<Cell>)
      requires InGrid(target0) && |enemies0| == EnemyCount
      requires forall i :: 0 <= i < |enemies0| ==> InGrid(enemies0[i])
      ensures Ready() && fresh(field)
      ensures Current() == Initial(target0, enemies0)
    {
      field := new Byte[Size, Size]((r, c) => 0);
      player := Cell(0, 0);
      target := target0;
      enemies := enemies0;
      lost, won := false, false;
      new;
      GridsEqual(Grid(), Initial(target0, enemies0).Field);
    }

    /** One pass of `while True`, with the random deltas it draws as parameters. */
    method Pass(input: seq<Byte>, enemyDeltas: seq<Cell>, targetDelta: Cell) returns (out: seq<Byte>, rest: seq<Byte>, exited: bool)
      requires Ready() && Valid(Current()) && |enemyDeltas| == |enemies|
      modifies this, field
      ensures Outcome(out, rest, exited, Current()) == Iteration(old(Current()), input, enemyDeltas, targetDelta)
    {
      ghost var w := Current();
      var moves;
      moves, rest := ReadInput(input);
      var delta := SumSteps(moves);
      if lost {
        out := WriteOutput(LoseScreen(Grid()));
        return out, rest, true;
      } else if won {
        out := WriteOutput(WinScreenAsWritten(Grid()));
        return out, rest, true;
      }
      PlayRound(delta, enemyDeltas, targetDelta);
      assert Current() == Round(w, Delta(moves), enemyDeltas, targetDelta);
      out := Render();
      exited := false;
      RoundIteration(w, input, enemyDeltas, targetDelta);
    }

    /** The moves of a running game: the player, the enemies, then the target, each followed by its check. */
    method PlayRound(delta: Cell, enemyDeltas: seq<Cell>, targetDelta: Cell)
      requires Ready() && Valid(Current()) && |enemyDeltas| == |enemies|
      modifies this, field
      ensures Current() == Round(old(Current()), delta, enemyDeltas, targetDelta)
    {
      MovePlayer(delta);
      ghost var w1 := Current();
      MoveAll(enemyDeltas);
      if player in enemies {
        lost := true;
      }
      assert Current() == w1.(Enemies := MoveEnemies(w1.Enemies, enemyDeltas), Lost := w1.Lost || w1.Player in MoveEnemies(w1.Enemies, enemyDeltas));
      target := CalcMove(target, targetDelta);
      if player == target {
        won := true;
      }
    }

    /** The player's move: on a change of cell, the enemy check and the visit count. */
    method MovePlayer(delta: Cell)
      requires Ready() && Valid(Current())
      modifies this, field
      ensures Current() == PlayerMoves(old(Current()), CalcMove(old(player), delta))
    {
      var next := CalcMove(player, delta);
      if next != player {
        player := next;
        if player in enemies {
          lost := true;
        }
        field[player.Row, player.Col] := Inc(field[player.Row, player.Col]);
        GridsEqual(Grid(), Visit(old(Grid()), next));
      }
    }

    /** `for i, enemy in enumerate(enemies)`: each enemy moved by its delta. */
    method MoveAll(enemyDeltas: seq<Cell>)
      requires |enemyDeltas| == |enemies|
      modifies this
      ensures enemies == MoveEnemies(old(enemies), enemyDeltas)
      ensures player == old(player) && target == old(target) && lost == old(lost) && won == old(won)
    {
      ghost var es := enemies;
      var i := 0;
      while i < |enemies|
        invariant 0 <= i <= |enemies| == |es|
        invariant forall j :: 0 <= j < i ==> enemies[j] == CalcMove(es[j], enemyDeltas[j])
        invariant forall j :: i <= j < |es| ==> enemies[j] == es[j]
        invariant player == old(player) && target == old(target) && lost == old(lost) && won == old(won)
      {
        enemies := enemies[i := CalcMove(enemies[i], enemyDeltas[i])];
        i := i + 1;
      }
      assert enemies == MoveEnemies(es, enemyDeltas);
    }

    /** The copy of the field with the target and the enemies drawn, written out. */
    method Render() returns (out: seq<Byte>)
      requires Ready() && Valid(Current())
      ensures out == Arcades.Flatten(Shown(Current()))
    {
      var screen := Put(Grid(), target, TargetColor);
      ghost var base := screen;
      var i := 0;
      while i < |enemies|
        invariant 0 <= i <= |enemies|
        invariant Arcades.IsScreen(screen)
        invariant screen == PaintEnemies(base, enemies[..i])
      {
        assert enemies[..i + 1][..i] == enemies[..i];
        screen := Put(screen, enemies[i], EnemyColor);
        i := i + 1;
      }
      assert enemies[..i] == enemies;
      out := WriteOutput(screen);
    }
  }

  /** A running game's pass is its round. */
  lemma RoundIteration(w: World, input: seq<Byte>, enemyDeltas: seq<Cell>, targetDelta: Cell)
    requires Valid(w) && |enemyDeltas| == |w.Enemies| && !w.Lost && !w.Won
    ensures var n := Round(w, Delta(Request(input).0), enemyDeltas, targetDelta);
            Iteration(w, input, enemyDeltas, targetDelta) == Outcome(Arcades.Flatten(Shown(n)), Request(input).1, false, n)
  {
  }

  /** Fields are equal when all their cells are. */
  lemma GridsEqual(g: Field, h: Field)
    requires Arcades.IsScreen(g) && Arcades.IsScreen(h)
    requires forall r, c :: 0 <= r < Size && 0 <= c < Size ==> g[r][c] == h[r][c]
    ensures g == h
  {
    forall r | 0 <= r < Size
      ensures g[r] == h[r]
    {
    }
  }
}
