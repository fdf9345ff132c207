/**
 * The built-in arcade game `Simple` (`arcade/simple.go`): a 64 by 64 grid
 * of cells rewritten in place. Each step scans the rows bottom-up and each
 * row left to right; enemies fall one row, and the player moves one cell.
 */
module SimpleArcade {
  import opened Arcades
  import K = Input

  datatype Cell = Empty | PlayerCell | Enemy | Finish

  datatype Move = Nop | Up | Down | Left | Right

  type Grid = seq<seq<Cell>>

  /** The grid with its two flags, as the spec of one step sees them. */
  datatype Board = Board(Grid: Grid, Lost: bool, Won: bool)

  /** `toMove`: A, D, W and S steer; every other key does nothing. */
  function ToMove(k: K.Key): (m: Move)
    ensures m == Left <==> k == K.A
    ensures m == Right <==> k == K.D
    ensures m == Up <==> k == K.W
    ensures m == Down <==> k == K.S
  {
    match k
    case A => Left
    case D => Right
    case W => Up
    case S => Down
    case _ => Nop
  }

  /** The move `Feed` makes: only the first key counts. */
  function FeedMove(keys: seq<K.Key>): (m: Move)
    ensures keys == [] ==> m == Nop
    ensures keys != [] ==> m == ToMove(keys[0])
  {
    if |keys| == 0 then Nop else ToMove(keys[0])
  }

  /** `max(0, min(ScreenSize-1, v))`. */
  function Clamp(v: int): (r: int)
    ensures 0 <= r < ScreenSize
    ensures 0 <= v < ScreenSize ==> r == v
    ensures v < 0 ==> r == 0
    ensures v >= ScreenSize ==> r == ScreenSize - 1
  {
    var lo := if ScreenSize - 1 < v then ScreenSize - 1 else v;
    if 0 < lo then lo else 0
  }

  /** The cell, as (row, column), the player at (`row`, `col`) moves to: one step, kept on the grid. */
  function Target(row: int, col: int, m: Move): (t: (int, int))
    requires 0 <= row < ScreenSize && 0 <= col < ScreenSize
    ensures 0 <= t.0 < ScreenSize && 0 <= t.1 < ScreenSize
    ensures m == Nop ==> t == (row, col)
    ensures m == Up ==> t == (if row == 0 then 0 else row - 1, col)
    ensures m == Down ==> t == (if row == ScreenSize - 1 then row else row + 1, col)
    ensures m == Left ==> t == (row, if col == 0 then 0 else col - 1)
    ensures m == Right ==> t == (row, if col == ScreenSize - 1 then col else col + 1)
  {
    var x := match m case Left => col - 1 case Right => col + 1 case _ => col;
    var y := match m case Up => row - 1 case Down => row + 1 case _ => row;
    (Clamp(y), Clamp(x))
  }

  /** The grid with cell (`r`, `c`) set to `v`. */
  function Put(g: Grid, r: int, c: int, v: Cell): (h: Grid)
    requires IsScreen(g) && 0 <= r < ScreenSize && 0 <= c < ScreenSize
    ensures IsScreen(h) && h[r][c] == v
    ensures forall i, j :: 0 <= i < ScreenSize && 0 <= j < ScreenSize && (i != r || j != c) ==> h[i][j] == g[i][j]
  {
    g[r := g[r][c := v]]
  }

  /**
   * What `step` does at one cell. An enemy leaves it and, unless on the
   * last row, lands on the cell below, ending the game if the player is
   * there. The player leaves it for the target, losing on an enemy and
   * winning on the finish; the target is checked before it is written.
   */
  function Visit(b: Board, row: int, col: int, m: Move): (v: Board)
    requires IsScreen(b.Grid) && 0 <= row < ScreenSize && 0 <= col < ScreenSize
    ensures IsScreen(v.Grid)
    ensures b.Lost ==> v.Lost
    ensures b.Won ==> v.Won
  {
    match b.Grid[row][col]
    case Enemy =>
      var g := Put(b.Grid, row, col, Empty);
      if row != ScreenSize - 1 then
        Board(Put(g, row + 1, col, Enemy), b.Lost || g[row + 1][col] == PlayerCell, b.Won)
      else
        b.(Grid := g)
    case PlayerCell =>
      var t := Target(row, col, m);
      var dest := b.Grid[t.0][t.1];
      Board(Put(Put(b.Grid, row, col, Empty), t.0, t.1, PlayerCell), b.Lost || dest == Enemy, b.Won || dest == Finish)
    case _ => b
  }

  /**
   * The entry rules of one visit: the game is lost when an enemy lands on
   * the player or the player steps onto an enemy, and won when the player
   * steps onto the finish; nothing else sets either flag.
   */
  lemma VisitFlags(b: Board, row: int, col: int, m: Move)
    requires IsScreen(b.Grid) && 0 <= row < ScreenSize && 0 <= col < ScreenSize
    ensures var v := Visit(b, row, col, m);
            var t := Target(row, col, m);
            var here := b.Grid[row][col];
            (v.Lost <==> b.Lost ||
                         (here == Enemy && row != ScreenSize - 1 && b.Grid[row + 1][col] == PlayerCell) ||
                         (here == PlayerCell && b.Grid[t.0][t.1] == Enemy)) &&
            (v.Won <==> b.Won || (here == PlayerCell && b.Grid[t.0][t.1] == Finish))
  {
  }

  /** The row and the column of the `k`-th cell `step` visits. */
  function RowAt(k: nat): int { ScreenSize - 1 - k / ScreenSize }

  function ColAt(k: nat): int { k % ScreenSize }

  /** How many cells `step` has visited before it reaches (`row`, `col`). */
  function ScanIndex(row: int, col: int): int { (ScreenSize - 1 - row) * ScreenSize + col }

  lemma ScanPosition(row: int, col: int)
    requires 0 <= row < ScreenSize && 0 <= col < ScreenSize
    ensures 0 <= ScanIndex(row, col) < ScreenSize * ScreenSize
    ensures RowAt(ScanIndex(row, col)) == row && ColAt(ScanIndex(row, col)) == col
  {
    var k := ScanIndex(row, col);
    assert k / ScreenSize == ScreenSize - 1 - row;
  }

  /** The board after `step` has visited its first `k` cells. */
  function Scan(b: Board, m: Move, k: nat): (s: Board)
    requires IsScreen(b.Grid) && k <= ScreenSize * ScreenSize
    ensures IsScreen(s.Grid)
    decreases k
  {
    if k == 0 then b else Visit(Scan(b, m, k - 1), RowAt(k - 1), ColAt(k - 1), m)
  }

  /** `step`: every cell visited once, in scan order, on the grid as the earlier visits left it. */
  function Step(b: Board, m: Move): (s: Board)
    requires IsScreen(b.Grid)
    ensures IsScreen(s.Grid)
  {
    Scan(b, m, ScreenSize * ScreenSize)
  }

  /** The board after the visits of the first `col` cells of `row`, left to right, starting from `s`. */
  function RowScan(s: Board, m: Move, row: int, col: nat): (t: Board)
    requires IsScreen(s.Grid) && 0 <= row < ScreenSize && col <= ScreenSize
    ensures IsScreen(t.Grid)
    decreases col
  {
    if col == 0 then s else Visit(RowScan(s, m, row, col - 1), row, col - 1, m)
  }

  /** One more cell of the scan is one more visit, at the cell the scan has reached. */
  lemma ScanNext(b: Board, m: Move, k: nat, next: nat)
    requires IsScreen(b.Grid) && k < ScreenSize * ScreenSize && next == k + 1
    ensures Scan(b, m, next) == Visit(Scan(b, m, k), RowAt(k), ColAt(k), m)
  {
  }

  /** Within a row, the scan reaches the cells of the row one after another. */
  lemma ScanInRow(b: Board, m: Move, row: int, col: int)
    requires IsScreen(b.Grid) && 0 <= row < ScreenSize && 0 < col <= ScreenSize
    ensures 0 <= ScanIndex(row, 0) && ScanIndex(row, 0) + col <= ScreenSize * ScreenSize
    ensures Scan(b, m, ScanIndex(row, 0) + col) == Visit(Scan(b, m, ScanIndex(row, 0) + (col - 1)), row, col - 1, m)
  {
    var k := ScanIndex(row, 0) + (col - 1);
    assert RowAt(k) == row && ColAt(k) == col - 1 by {
      ScanPosition(row, col - 1);
    }
    ScanNext(b, m, k, ScanIndex(row, 0) + col);
  }

  /** Scanning part of a row continues the scan of the cells before it. */
  lemma {:induction false} RowScanIsScan(b: Board, m: Move, row: int, col: nat)
    requires IsScreen(b.Grid) && 0 <= row < ScreenSize && col <= ScreenSize
    ensures 0 <= ScanIndex(row, 0) && ScanIndex(row, 0) + col <= ScreenSize * ScreenSize
    ensures RowScan(Scan(b, m, ScanIndex(row, 0)), m, row, col) == Scan(b, m, ScanIndex(row, 0) + col)
    decreases col
  {
    ScanPosition(row, 0);
    if col > 0 {
      RowScanIsScan(b, m, row, col - 1);
      RowScanStep(b, m, row, col);
    }
  }

  /** The inductive step of `RowScanIsScan`: one more cell of the row is one more cell of the scan. */
  lemma RowScanStep(b: Board, m: Move, row: int, col: nat)
    requires IsScreen(b.Grid) && 0 <= row < ScreenSize && 0 < col <= ScreenSize
    requires 0 <= ScanIndex(row, 0) && ScanIndex(row, 0) + col <= ScreenSize * ScreenSize
    requires RowScan(Scan(b, m, ScanIndex(row, 0)), m, row, col - 1) == Scan(b, m, ScanIndex(row, 0) + (col - 1))
    ensures RowScan(Scan(b, m, ScanIndex(row, 0)), m, row, col) == Scan(b, m, ScanIndex(row, 0) + col)
  {
    ScanInRow(b, m, row, col);
  }

  /** Scanning a whole row takes the scan to the start of the row above. */
  lemma RowDone(b: Board, m: Move, row: int)
    requires IsScreen(b.Grid) && 0 <= row < ScreenSize
    ensures 0 <= ScanIndex(row, 0) && ScanIndex(row - 1, 0) <= ScreenSize * ScreenSize
    ensures RowScan(Scan(b, m, ScanIndex(row, 0)), m, row, ScreenSize) == Scan(b, m, ScanIndex(row - 1, 0))
  {
    RowScanIsScan(b, m, row, ScreenSize);
    assert ScanIndex(row, 0) + ScreenSize == ScanIndex(row - 1, 0);
  }

  /** What `reset` leaves in a cell. */
  function ResetCell(r: int, c: int): Cell {
    if r == 0 && c % 2 == 0 then Enemy
    else if r == 1 && c % 2 == 1 then Enemy
    else if r == ScreenSize / 2 && c == ScreenSize - 1 then Finish
    else if r == ScreenSize / 4 && c == 0 then PlayerCell
    else Empty
  }

  function ResetGrid(): (g: Grid)
    ensures IsScreen(g)
  {
    seq(ScreenSize, r => seq(ScreenSize, c => ResetCell(r, c)))
  }

  /** The colour `State` gives a cell. */
  function ColorOf(c: Cell): Color {
    match c
    case PlayerCell => Rgba(0, 0, 255, 255)
    case Enemy => Rgba(255, 0, 0, 255)
    case Finish => Rgba(0, 255, 0, 255)
    case Empty => Rgba(0, 0, 0, 0)
  }

  // ---- Properties of a step ------------------------------------------------

  /** Neither flag is ever cleared by a step. */
  lemma {:induction false} ScanKeepsFlags(b: Board, m: Move, k: nat)
    requires IsScreen(b.Grid) && k <= ScreenSize * ScreenSize
    ensures b.Lost ==> Scan(b, m, k).Lost
    ensures b.Won ==> Scan(b, m, k).Won
  {
    if k > 0 {
      ScanKeepsFlags(b, m, k - 1);
    }
  }

  /**
   * Moving up or right takes the player to a cell the scan has not reached
   * yet, so it moves again in the same step; moving down or left, to one
   * it has passed.
   */
  lemma MoveRevisits(row: int, col: int, m: Move)
    requires 0 <= row < ScreenSize && 0 <= col < ScreenSize
    ensures var t := Target(row, col, m);
            (m == Up || m == Right) && t != (row, col) ==> ScanIndex(t.0, t.1) > ScanIndex(row, col)
    ensures var t := Target(row, col, m);
            (m == Down || m == Left) && t != (row, col) ==> ScanIndex(t.0, t.1) < ScanIndex(row, col)
  {
  }

  predicate NoPlayer(g: Grid)
    requires IsScreen(g)
  {
    forall r, c :: 0 <= r < ScreenSize && 0 <= c < ScreenSize ==> g[r][c] != PlayerCell
  }

  /** Each enemy one row down; those on the last row are gone, and a falling enemy covers what was below. */
  function FallenCell(g: Grid, r: int, c: int): Cell
    requires IsScreen(g) && 0 <= r < ScreenSize && 0 <= c < ScreenSize
  {
    if r > 0 && g[r - 1][c] == Enemy then Enemy else if g[r][c] == Enemy then Empty else g[r][c]
  }

  function Fallen(g: Grid): (h: Grid)
    requires IsScreen(g)
    ensures IsScreen(h)
  {
    seq(ScreenSize, r requires 0 <= r < ScreenSize => seq(ScreenSize, c requires 0 <= c < ScreenSize => FallenCell(g, r, c)))
  }

  /** The grid after the first `k` visits of a step without a player: cells already visited have fallen. */
  function PartlyFallenCell(g: Grid, k: int, r: int, c: int): Cell
    requires IsScreen(g) && 0 <= r < ScreenSize && 0 <= c < ScreenSize
  {
    if ScanIndex(r, c) >= k then g[r][c]
    else if r > 0 && ScanIndex(r - 1, c) < k && g[r - 1][c] == Enemy then Enemy
    else if g[r][c] == Enemy then Empty
    else g[r][c]
  }

  function PartlyFallen(g: Grid, k: int): (h: Grid)
    requires IsScreen(g)
    ensures IsScreen(h)
    ensures forall r, c :: 0 <= r < ScreenSize && 0 <= c < ScreenSize ==> h[r][c] == PartlyFallenCell(g, k, r, c)
  {
    seq(ScreenSize, r requires 0 <= r < ScreenSize => seq(ScreenSize, c requires 0 <= c < ScreenSize => PartlyFallenCell(g, k, r, c)))
  }

  /** Grids are equal when all their cells are. */
  lemma GridsEqual(g: Grid, h: Grid)
    requires IsScreen(g) && IsScreen(h)
    requires forall r, c :: 0 <= r < ScreenSize && 0 <= c < ScreenSize ==> g[r][c] == h[r][c]
    ensures g == h
  {
    forall r | 0 <= r < ScreenSize
      ensures g[r] == h[r]
    {
    }
  }

  /** The one or two cells that change when the `k`-th visit lets a cell fall. */
  lemma FallCell(g: Grid, k: nat, r: int, c: int)
    requires IsScreen(g) && k < ScreenSize * ScreenSize && 0 <= r < ScreenSize && 0 <= c < ScreenSize
    ensures 0 <= RowAt(k) < ScreenSize && 0 <= ColAt(k) < ScreenSize
    ensures PartlyFallenCell(g, k + 1, r, c) ==
              if r == RowAt(k) && c == ColAt(k) && g[r][c] == Enemy then Empty
              else if r == RowAt(k) + 1 && c == ColAt(k) && g[RowAt(k)][c] == Enemy then Enemy
              else PartlyFallenCell(g, k, r, c)
  {
    assert 0 <= RowAt(k) < ScreenSize && 0 <= ColAt(k) < ScreenSize;
    ScanPosition(RowAt(k), ColAt(k));
    ScanPosition(r, c);
    if r > 0 {
      ScanPosition(r - 1, c);
    }
  }

  /** One more visit of a step without a player lets one more cell fall. */
  lemma FallStep(g: Grid, lost: bool, won: bool, m: Move, k: nat)
    requires IsScreen(g) && NoPlayer(g) && k < ScreenSize * ScreenSize
    ensures Visit(Board(PartlyFallen(g, k), lost, won), RowAt(k), ColAt(k), m) == Board(PartlyFallen(g, k + 1), lost, won)
  {
    var row, col := RowAt(k), ColAt(k);
    FallCell(g, k, 0, 0);
    ScanPosition(row, col);
    var p := PartlyFallen(g, k);
    var q := PartlyFallen(g, k + 1);
    var v := Visit(Board(p, lost, won), row, col, m);
    assert p[row][col] == g[row][col];
    assert row < ScreenSize - 1 ==> p[row + 1][col] != PlayerCell;
    assert v.Lost == lost && v.Won == won;
    forall r, c | 0 <= r < ScreenSize && 0 <= c < ScreenSize
      ensures v.Grid[r][c] == q[r][c]
    {
      FallCell(g, k, r, c);
    }
    GridsEqual(v.Grid, q);
  }

  lemma {:induction false} ScanFalls(b: Board, m: Move, k: nat)
    requires IsScreen(b.Grid) && NoPlayer(b.Grid) && k <= ScreenSize * ScreenSize
    ensures Scan(b, m, k) == Board(PartlyFallen(b.Grid, k), b.Lost, b.Won)
  {
    if k == 0 {
      GridsEqual(b.Grid, PartlyFallen(b.Grid, 0));
    } else {
      ScanFalls(b, m, k - 1);
      FallStep(b.Grid, b.Lost, b.Won, m, k - 1);
    }
  }

  /**
   * Without a player on the grid, a step moves every enemy down one row,
   * drops those on the last row, and changes neither flag, whatever the move.
   */
  lemma EnemiesFall(b: Board, m: Move)
    requires IsScreen(b.Grid) && NoPlayer(b.Grid)
    ensures Step(b, m) == Board(Fallen(b.Grid), b.Lost, b.Won)
  {
    ScanFalls(b, m, ScreenSize * ScreenSize);
    forall r, c | 0 <= r < ScreenSize && 0 <= c < ScreenSize
      ensures PartlyFallen(b.Grid, ScreenSize * ScreenSize)[r][c] == Fallen(b.Grid)[r][c]
    {
      ScanPosition(r, c);
      if r > 0 {
        ScanPosition(r - 1, c);
      }
    }
    GridsEqual(PartlyFallen(b.Grid, ScreenSize * ScreenSize), Fallen(b.Grid));
  }

  class Simple {
    const state: array2<Cell>
    var lost: bool
    var won: bool

    ghost predicate Valid() {
      state.Length0 == ScreenSize && state.Length1 == ScreenSize
    }

    function Grid(): (g: Grid)
      requires Valid()
      reads state
      ensures IsScreen(g)
      ensures forall i, j :: 0 <= i < ScreenSize && 0 <= j < ScreenSize ==> g[i][j] == state[i, j]
    {
      seq(ScreenSize, i requires 0 <= i < ScreenSize reads state => seq(ScreenSize, j requires 0 <= j < ScreenSize reads state => state[i, j]))
    }

    function Current(): (b: Board)
      requires Valid()
      reads this, state
    {
      Board(Grid(), lost, won)
    }

    /** `newSimpleGame`: the zero value, an empty grid and neither flag. */
    constructor ()
      ensures Valid() && fresh(state)
      ensures forall i, j :: 0 <= i < ScreenSize && 0 <= j < ScreenSize ==> Grid()[i][j] == Empty
      ensures !lost && !won
    {
      state := new Cell[ScreenSize, ScreenSize]((i, j) => Empty);
      lost := false;
      won := false;
    }

    /** `Start`: resets the grid; the flags are left as they are. */
    method Start()
      requires Valid()
      modifies state
      ensures Current() == old(Current()).(Grid := ResetGrid())
    {
      Reset();
    }

    /** `Stop` has nothing to release. */
    method Stop()
      ensures unchanged(this) && unchanged(state)
    {
    }

    /** `Feed`: one step with the move of the first key, or none. */
    method Feed(keys: seq<K.Key>)
      requires Valid()
      modifies this, state
      ensures Current() == Step(old(Current()), FeedMove(keys))
    {
      var m := if |keys| == 0 then Nop else ToMove(keys[0]);
      StepGame(m);
    }

    /** `State`: a lost game reports `ResultLost` even when it was also won. */
    function State(): (s: Arcades.State)
      requires Valid()
      reads this, state
      ensures s.Won == won
      ensures s.Result == ResultLost <==> lost
      ensures s.Result == ResultWon <==> !lost && won
      ensures IsScreen(s.Screen)
      ensures forall i, j :: 0 <= i < ScreenSize && 0 <= j < ScreenSize ==> s.Screen[i][j] == ColorOf(state[i, j])
    {
      var result := if lost then ResultLost else if won then ResultWon else ResultUnknown;
      Arcades.State(won, result, seq(ScreenSize, i requires 0 <= i < ScreenSize reads state => seq(ScreenSize, j requires 0 <= j < ScreenSize reads state => ColorOf(state[i, j]))))
    }

    /** `reset`: empties the grid, then places the two enemy rows, the finish and the player. */
    method Reset()
      requires Valid()
      modifies state
      ensures Grid() == ResetGrid()
      ensures lost == old(lost) && won == old(won)
    {
      var r := 0;
      while r < ScreenSize
        invariant 0 <= r <= ScreenSize
        invariant forall i, j :: 0 <= i < r && 0 <= j < ScreenSize ==> state[i, j] == Empty
      {
        var c := 0;
        while c < ScreenSize
          invariant 0 <= c <= ScreenSize
          invariant forall i, j :: 0 <= i < r && 0 <= j < ScreenSize ==> state[i, j] == Empty
          invariant forall j :: 0 <= j < c ==> state[r, j] == Empty
        {
          state[r, c] := Empty;
          c := c + 1;
        }
        r := r + 1;
      }
      var i := 0;
      while i < ScreenSize
        invariant 0 <= i <= ScreenSize && i % 2 == 0
        invariant forall j :: 0 <= j < ScreenSize ==> state[0, j] == (if j < i && j % 2 == 0 then Enemy else Empty)
        invariant forall r', j :: 1 <= r' < ScreenSize && 0 <= j < ScreenSize ==> state[r', j] == Empty
      {
        state[0, i] := Enemy;
        i := i + 2;
      }
      i := 1;
      while i < ScreenSize
        invariant 1 <= i <= ScreenSize + 1 && i % 2 == 1
        invariant forall j :: 0 <= j < ScreenSize ==> state[0, j] == (if j % 2 == 0 then Enemy else Empty)
        invariant forall j :: 0 <= j < ScreenSize ==> state[1, j] == (if j < i && j % 2 == 1 then Enemy else Empty)
        invariant forall r', j :: 2 <= r' < ScreenSize && 0 <= j < ScreenSize ==> state[r', j] == Empty
      {
        state[1, i] := Enemy;
        i := i + 2;
      }
      state[ScreenSize / 2, ScreenSize - 1] := Finish;
      state[ScreenSize / 4, 0] := PlayerCell;
      forall i' | 0 <= i' < ScreenSize
        ensures Grid()[i'] == ResetGrid()[i']
      {
      }
    }

    /** Writes one cell. */
    method Set(r: int, c: int, v: Cell)
      requires Valid() && 0 <= r < ScreenSize && 0 <= c < ScreenSize
      modifies state
      ensures Grid() == Put(old(Grid()), r, c, v)
    {
      state[r, c] := v;
      forall i | 0 <= i < ScreenSize
        ensures Grid()[i] == Put(old(Grid()), r, c, v)[i]
      {
      }
    }

    /** The body of the two loops of `step`, at one cell. */
    method VisitCell(row: int, col: int, m: Move)
      requires Valid() && 0 <= row < ScreenSize && 0 <= col < ScreenSize
      modifies this, state
      ensures Current() == Visit(old(Current()), row, col, m)
    {
      match state[row, col]
      case Enemy =>
        Set(row, col, Empty);
        if row != ScreenSize - 1 {
          if state[row + 1, col] == PlayerCell {
            lost := true;
          }
          Set(row + 1, col, Enemy);
        }
      case PlayerCell =>
        var t := Target(row, col, m);
        if state[t.0, t.1] == Enemy {
          lost := true;
        }
        if state[t.0, t.1] == Finish {
          won := true;
        }
        Set(row, col, Empty);
        Set(t.0, t.1, PlayerCell);
      case _ =>
    }

    /** `step`: rows from the bottom up, each from left to right. */
    method StepGame(m: Move)
      requires Valid()
      modifies this, state
      ensures Current() == Step(old(Current()), m)
    {
      ghost var b := Current();
      var row := ScreenSize - 1;
      while row >= 0
        invariant -1 <= row < ScreenSize
        invariant 0 <= ScanIndex(row, 0) <= ScreenSize * ScreenSize
        invariant Current() == Scan(b, m, ScanIndex(row, 0))
      {
        StepRow(row, m);
        RowDone(b, m, row);
        row := row - 1;
      }
      assert ScanIndex(row, 0) == ScreenSize * ScreenSize;
    }

    /** The inner loop of `step`: one row, left to right. */
    method StepRow(row: int, m: Move)
      requires Valid() && 0 <= row < ScreenSize
      modifies this, state
      ensures Current() == RowScan(old(Current()), m, row, ScreenSize)
    {
      ghost var s := Current();
      var col := 0;
      while col < ScreenSize
        invariant 0 <= col <= ScreenSize
        invariant Current() == RowScan(s, m, row, col)
      {
        VisitCell(row, col, m);
        col := col + 1;
      }
    }
  }
}
