/**
 * The engine's side of an arcade that runs as a separate program
 * (`internal/arcade/binary.go`): each `Feed` writes one frame of key codes
 * to the program's standard input and reads back one screen of 4096 colour
 * indices; a screen holding "WIN" or "LOSE" ends the game. The program's
 * process, its pipes and the temporary file are parameters: what each
 * system call returns is given to the method that makes it.
 */
module BinaryArcade {
  import opened Bytes
  import opened Wrappers
  import opened Arcades
  import K = Input
  import Brodilka
  import Maze

  const WinMarker: seq<Byte> := [87, 73, 78]
  const LoseMarker: seq<Byte> := [76, 79, 83, 69]

  /** `len(Screen) * len(Screen[0])`: the bytes of one screen. */
  const OutputSize: nat := ScreenSize * ScreenSize

  // ---- The frame the engine writes -----------------------------------------

  /** `binaryKeyMapping`: the arrow keys have codes 1 to 4; no other key has one. */
  function KeyCode(k: K.Key): (c: Option<Byte>)
    ensures c.Some? <==> k in {K.ArrowUp, K.ArrowDown, K.ArrowLeft, K.ArrowRight}
    ensures c.Some? ==> 1 <= c.value <= 4
  {
    match k
    case ArrowUp => Some(1)
    case ArrowDown => Some(2)
    case ArrowLeft => Some(3)
    case ArrowRight => Some(4)
    case _ => None
  }

  /** `lo.FilterMap`: the codes of the mapped keys, in the order of the keys. */
  function Codes(keys: seq<K.Key>): (inp: seq<Byte>)
    ensures |inp| <= |keys|
    ensures forall i :: 0 <= i < |inp| ==> 1 <= inp[i] <= 4
    ensures forall k :: k in keys && KeyCode(k).Some? ==> KeyCode(k).value in inp
  {
    if keys == [] then []
    else
      var rest := Codes(keys[1..]);
      match KeyCode(keys[0])
      case Some(c) => [c] + rest
      case None => rest
  }

  /** Filtering keeps the order: the codes of two runs of keys are the codes of each. */
  lemma {:induction false} CodesAppend(a: seq<K.Key>, b: seq<K.Key>)
    ensures Codes(a + b) == Codes(a) + Codes(b)
  {
    if a != [] {
      assert (a + b)[0] == a[0];
      assert (a + b)[1..] == a[1..] + b;
      CodesAppend(a[1..], b);
      match KeyCode(a[0])
      case Some(c) =>
        assert Codes(a + b) == [c] + Codes(a[1..] + b);
        assert Codes(a) == [c] + Codes(a[1..]);
      case None =>
        assert Codes(a + b) == Codes(a[1..] + b);
    } else {
      assert a + b == b;
    }
  }

  /**
   * The frame `Feed` evidently means to write: the number of codes as a
   * big-endian `uint32` (so modulo 2^32), then the codes.
   */
  function Frame(inp: seq<Byte>): (f: seq<Byte>)
    ensures |f| == 4 + |inp| && f[4..] == inp
    ensures |inp| < 0x1_0000_0000 ==> ReadBigEndian32(f[..4]) == |inp|
  {
    BigEndian32(|inp| % 0x1_0000_0000) + inp
  }

  /** The brodilka game reads a frame back as the moves of exactly the keys in it, and leaves what follows. */
  lemma BrodilkaReadsFrame(inp: seq<Byte>, rest: seq<Byte>)
    requires |inp| < 0x1_0000_0000
    ensures Brodilka.Request(Frame(inp) + rest) == (Brodilka.KeyMoves(inp), rest)
  {
    assert Frame(inp) == BigEndian32(|inp|) + inp;
    Brodilka.FrameRead(inp, rest);
  }

  /** The maze game reads a frame back as exactly its codes, and leaves what follows. */
  lemma MazeReadsFrame(inp: seq<Byte>, rest: seq<Byte>)
    requires |inp| < 0x1_0000_0000
    ensures var input := Frame(inp) + rest;
            ReadBigEndian32(input[..4]) == |inp| && Maze.BodyLength(input) == |inp| &&
            input[4..4 + |inp|] == inp && input[4 + |inp|..] == rest
  {
    var input := Frame(inp) + rest;
    assert input[..4] == Frame(inp)[..4];
  }

  /** Each arrow key held in a tick is a move of the brodilka game, and nothing else is. */
  lemma ArrowsAreMoves(keys: seq<K.Key>)
    ensures forall m :: m in Brodilka.KeyMoves(Codes(keys)) <==>
              exists k | k in keys :: KeyCode(k).Some? && Brodilka.MoveOf(KeyCode(k).value) == Some(m)
  {
    forall m | m in Brodilka.KeyMoves(Codes(keys))
      ensures exists k | k in keys :: KeyCode(k).Some? && Brodilka.MoveOf(KeyCode(k).value) == Some(m)
    {
      var c :| c in Codes(keys) && Brodilka.MoveOf(c) == Some(m);
      CodeHasKey(keys, c);
    }
  }

  lemma {:induction false} CodeHasKey(keys: seq<K.Key>, c: Byte)
    requires c in Codes(keys)
    ensures exists k | k in keys :: KeyCode(k) == Some(c)
  {
    if KeyCode(keys[0]) == Some(c) {
      assert keys[0] in keys;
    } else {
      CodeHasKey(keys[1..], c);
      var k :| k in keys[1..] && KeyCode(k) == Some(c);
      assert k in keys;
    }
  }

  // ---- The frame as written, over Go slices --------------------------------

  /** A Go byte slice: a window of `Len` bytes at `Low` in a backing array, which may extend past it. */
  datatype Slice = Slice(Backing: seq<Byte>, Low: nat, Len: nat) {
    predicate Ok() { Low + Len <= |Backing| }
    function Cap(): int { |Backing| - Low }
    function Bytes(): seq<Byte> requires Ok() { Backing[Low..Low + Len] }
  }

  /** `s[lo:hi]`, or a panic (`None`) unless `lo <= hi <= cap(s)`. */
  function Reslice(s: Slice, lo: nat, hi: nat): (r: Option<Slice>)
    requires s.Ok()
    ensures r.Some? <==> lo <= hi <= s.Cap()
    ensures r.Some? ==> r.value.Ok() && r.value.Len == hi - lo
  {
    if lo <= hi <= s.Cap() then Some(Slice(s.Backing, s.Low + lo, hi - lo)) else None
  }

  function Zeros(n: nat): (z: seq<Byte>)
    ensures |z| == n
  {
    if n == 0 then [] else [0] + Zeros(n - 1)
  }

  /** `slices.Grow(s, n)`: the same slice when `n` more bytes fit, else a copy with room for `n + extra` more. */
  function Grow(s: Slice, n: nat, extra: nat): (r: Slice)
    requires s.Ok()
    ensures r.Ok() && r.Len == s.Len && r.Cap() - r.Len >= n && r.Bytes() == s.Bytes()
  {
    if s.Cap() - s.Len >= n then s
    else Slice(s.Bytes() + Zeros(n + extra), 0, s.Len)
  }

  /** `binary.BigEndian.PutUint32(s[:4], v)` on a window of at least four bytes. */
  function PutUint32(s: Slice, v: nat): (r: Slice)
    requires s.Ok() && s.Len >= 4 && v < 0x1_0000_0000
    ensures r.Ok() && r.Low == s.Low && r.Len == s.Len
  {
    Slice(s.Backing[..s.Low] + BigEndian32(v) + s.Backing[s.Low + 4..], s.Low, s.Len)
  }

  /**
   * The frame-building lines of `Feed` as they stand: `buf[:0]`, `Grow`,
   * `PutUint32(buf[:4], …)` and `copy(buf[4:], inp)`. The result is the bytes
   * passed to `Write`, or `None` where Go panics.
   */
  function FrameAsWritten(buf: Slice, inp: seq<Byte>, extra: nat): (r: Option<seq<Byte>>)
    requires buf.Ok()
  {
    var b := Reslice(buf, 0, 0).value;
    var b := Grow(b, 4 + |inp|, extra);
    match Reslice(b, 0, 4)
    case None => None
    case Some(head) =>
      var b := b.(Backing := PutUint32(head, |inp| % 0x1_0000_0000).Backing);
      match Reslice(b, 4, b.Len)
      case None => None
      case Some(_) => Some(b.Bytes())
  }

  /** `buf[4:]` on a slice of length zero is out of range: every `Feed` of a started game panics. */
  lemma FrameAsWrittenPanics(buf: Slice, inp: seq<Byte>, extra: nat)
    requires buf.Ok()
    ensures FrameAsWritten(buf, inp, extra) == None
  {
    var b := Grow(Reslice(buf, 0, 0).value, 4 + |inp|, extra);
    assert b.Len == 0;
  }

  // ---- The screen the engine reads -----------------------------------------

  /** Won on "WIN" anywhere, else lost on "LOSE" anywhere, else still running. */
  function Verdict(data: seq<Byte>): (r: Arcades.Result)
    ensures r == ResultWon <==> Contains(data, WinMarker)
    ensures r == ResultLost <==> !Contains(data, WinMarker) && Contains(data, LoseMarker)
  {
    if Contains(data, WinMarker) then ResultWon
    else if Contains(data, LoseMarker) then ResultLost
    else ResultUnknown
  }

  /** Byte `i` of the reply colours cell (i / 64, i % 64), through the 256-entry colour table. */
  function ScreenOf(data: seq<Byte>): (g: seq<seq<Color>>)
    requires |data| == OutputSize
    ensures IsScreen(g)
    ensures forall r, c :: 0 <= r < ScreenSize && 0 <= c < ScreenSize ==> g[r][c] == Palette(data[r * ScreenSize + c])
  {
    seq(ScreenSize, r requires 0 <= r < ScreenSize =>
      seq(ScreenSize, c requires 0 <= c < ScreenSize => Palette(data[r * ScreenSize + c])))
  }

  /** Every byte of a flattened screen is a byte of one of its rows. */
  lemma {:induction false} FlattenedByte(g: seq<seq<Byte>>, v: Byte)
    requires v in Flatten(g)
    ensures exists y | 0 <= y < |g| :: v in g[y]
  {
    var n := |g| - 1;
    if v in Flatten(g[..n]) {
      FlattenedByte(g[..n], v);
      var y :| 0 <= y < n && v in g[..n][y];
      assert v in g[y];
    } else {
      assert v in g[n];
    }
  }

  /** A stream without the byte `v` holds no pattern with `v` in it. */
  lemma Absent(s: seq<Byte>, pat: seq<Byte>, v: Byte)
    requires v in pat && v !in s
    ensures !Contains(s, pat)
  {
    var j :| 0 <= j < |pat| && pat[j] == v;
    forall i | 0 <= i <= |s| - |pat|
      ensures !OccursAt(s, pat, i)
    {
      assert s[i..i + |pat|][j] == s[i + j];
    }
  }

  /**
   * The brodilka game's last screen after a win says "WON", which the engine
   * does not look for: over a field where no count is 'I' (73) or 'L' (76),
   * the zero field among them, the win reads as a game still running.
   */
  lemma WonScreenUnseen(f: Brodilka.Field)
    requires IsScreen(f)
    requires forall r, c :: 0 <= r < ScreenSize && 0 <= c < ScreenSize ==> f[r][c] != 73 && f[r][c] != 76
    ensures Verdict(Flatten(Brodilka.WinScreenAsWritten(f))) == ResultUnknown
  {
    var g := Brodilka.WinScreenAsWritten(f);
    var out := Flatten(g);
    forall v | v in out
      ensures v != 73 && v != 76
    {
      FlattenedByte(g, v);
      var y :| 0 <= y < |g| && v in g[y];
      var x :| 0 <= x < |g[y]| && g[y][x] == v;
      if y == 0 && x < 3 {
        assert v == Brodilka.WonText[x];
      } else {
        assert v == f[y][x];
      }
    }
    assert 73 in WinMarker && 76 in LoseMarker;
    Absent(out, WinMarker, 73);
    Absent(out, LoseMarker, 76);
  }

  /**
   * The program's main loop after a win: the next pass exits with the "WON"
   * screen, which the engine reads as a game still running (when no visit
   * count is 'I' or 'L').
   */
  lemma BrodilkaWinUnseen(w: Brodilka.World, input: seq<Byte>, enemyDeltas: seq<Brodilka.Cell>, targetDelta: Brodilka.Cell)
    requires Brodilka.Valid(w) && |enemyDeltas| == |w.Enemies| && w.Won && !w.Lost
    requires forall r, c :: 0 <= r < ScreenSize && 0 <= c < ScreenSize ==> w.Field[r][c] != 73 && w.Field[r][c] != 76
    ensures var p := Brodilka.Iteration(w, input, enemyDeltas, targetDelta);
            p.Exited && Verdict(p.Out) == ResultUnknown
  {
    WonScreenUnseen(w.Field);
  }

  /** Row 0 of a screen opens the byte stream. */
  lemma CaptionLeads(g: seq<seq<Byte>>, text: seq<Byte>)
    requires IsScreen(g) && |text| <= ScreenSize && g[0][..|text|] == text
    ensures OccursAt(Flatten(g), text, 0)
  {
    FlattenLayout(g);
    forall i | 0 <= i < |text|
      ensures Flatten(g)[i] == text[i]
    {
      assert Flatten(g)[0 * ScreenSize + i] == g[0][i];
    }
  }

  /** With "WIN" written, as the engine expects, the win is read as one. */
  lemma WinScreenSeen(f: Brodilka.Field)
    requires IsScreen(f)
    ensures Verdict(Flatten(Brodilka.WinScreen(f))) == ResultWon
  {
    var g := Brodilka.WinScreen(f);
    assert g[0][..3] == WinMarker;
    CaptionLeads(g, WinMarker);
  }

  /** The losing screen ends the game; it reads as lost unless a count spells "WIN" elsewhere on it. */
  lemma LoseScreenSeen(f: Brodilka.Field)
    requires IsScreen(f)
    ensures Verdict(Flatten(Brodilka.LoseScreen(f))) != ResultUnknown
    ensures (forall r, c :: 0 <= r < ScreenSize && 0 <= c < ScreenSize ==> f[r][c] != 73) ==>
              Verdict(Flatten(Brodilka.LoseScreen(f))) == ResultLost
  {
    var g := Brodilka.LoseScreen(f);
    assert g[0][..4] == LoseMarker;
    CaptionLeads(g, LoseMarker);
    if forall r, c :: 0 <= r < ScreenSize && 0 <= c < ScreenSize ==> f[r][c] != 73 {
      var out := Flatten(g);
      forall v | v in out
        ensures v != 73
      {
        FlattenedByte(g, v);
        var y :| 0 <= y < |g| && v in g[y];
        var x :| 0 <= x < |g[y]| && g[y][x] == v;
        if y == 0 && x < 4 {
          assert v == Brodilka.LoseText[x];
        } else {
          assert v == f[y][x];
        }
      }
      assert 73 in WinMarker;
      Absent(out, WinMarker, 73);
    }
  }

  // ---- The game ------------------------------------------------------------

  /** The step of `Start` that fails. */
  datatype StartStep = CreateTemp | Dump | Chmod | StdinPipe | StdoutPipe | Launch

  datatype Failure =
    | AlreadyStarted
    | NotStarted
    | StartFailed(Step: StartStep)
    | StopFailed(Kill: bool, Wait: bool)
    | WriteFailed
    | ReadFailed

  /** What the running program does in one `Feed`: whether the write succeeds, the bytes it writes back, and how killing it goes. */
  datatype Process = Process(Accepts: bool, Reply: seq<Byte>, KillFails: bool, WaitFails: bool)

  class BinaryGame {
    const name: string
    var path: string
    var running: bool
    var piped: bool
    var won: bool
    var result: Arcades.Result
    const screen: array2<Color>

    ghost predicate Ready() {
      screen.Length0 == ScreenSize && screen.Length1 == ScreenSize
    }

    /** The temporary file, the process and its pipes exist together or not at all. */
    ghost predicate Linked()
      reads this
    {
      (path != "" <==> running) && (running <==> piped)
    }

    function Grid(): (g: seq<seq<Color>>)
      requires Ready()
      reads screen
      ensures IsScreen(g)
      ensures forall r, c :: 0 <= r < ScreenSize && 0 <= c < ScreenSize ==> g[r][c] == screen[r, c]
    {
      seq(ScreenSize, r requires 0 <= r < ScreenSize reads screen =>
        seq(ScreenSize, c requires 0 <= c < ScreenSize reads screen => screen[r, c]))
    }

    /** `State`: the state the engine draws and checks. */
    function State(): (s: Arcades.State)
      requires Ready()
      reads this, screen
      ensures s.Won == won && s.Result == result && s.Screen == Grid()
    {
      Arcades.State(won, result, Grid())
    }

    /** `newBinaryGame`, once the embedded program has been read: nothing started, an unset screen. */
    constructor (name: string)
      ensures Ready() && Linked() && fresh(screen)
      ensures this.name == name && path == "" && !won && result == ResultUnknown
      ensures forall r, c :: 0 <= r < ScreenSize && 0 <= c < ScreenSize ==> screen[r, c] == NoColor
    {
      this.name := name;
      path := "";
      running, piped := false, false;
      won, result := false, ResultUnknown;
      screen := new Color[ScreenSize, ScreenSize]((r, c) => NoColor);
    }

    /**
     * `Start`: refuses a started game; otherwise resets the result and dumps,
     * marks executable and launches the program, and cleans everything up
     * when a step (`fails`) returns an error. `temp` is the file name
     * `os.CreateTemp` picks.
     */
    method Start(temp: string, fails: Option<StartStep>) returns (err: Option<Failure>)
      requires temp != "" && Linked()
      modifies this
      ensures Linked() && won == old(won)
      ensures old(path) != "" ==> err == Some(AlreadyStarted) && path == old(path) && result == old(result)
      ensures old(path) == "" ==> (result == ResultUnknown && (err.None? <==> fails.None?) &&
                                   (fails.Some? ==> err == Some(StartFailed(fails.value)) && path == "") &&
                                   (fails.None? ==> path == temp))
    {
      if path != "" {
        return Some(AlreadyStarted);
      }
      result := ResultUnknown;
      if fails == Some(CreateTemp) || fails == Some(Dump) || fails == Some(Chmod) {
        Cleanup();
        return Some(StartFailed(fails.value));
      }
      path := temp;
      running := true;
      if fails.Some? {
        Cleanup();
        return Some(StartFailed(fails.value));
      }
      piped := true;
      err := None;
    }

    /** `cleanup`: kills and removes whatever exists and forgets it. */
    method Cleanup()
      modifies this
      ensures path == "" && !running && !piped
      ensures won == old(won) && result == old(result)
    {
      path := "";
      running := false;
      piped := false;
    }

    /** `Stop`: nothing to do before a start; else kills and waits for the program, and joins the two errors. */
    method Stop(killFails: bool, waitFails: bool) returns (err: Option<Failure>)
      requires Linked()
      modifies this
      ensures Linked() && won == old(won) && result == old(result)
      ensures old(path) == "" ==> err.None? && path == ""
      ensures old(path) != "" ==> (path == "" && (err.None? <==> !killFails && !waitFails) &&
                                   (err.Some? ==> err == Some(StopFailed(killFails, waitFails))))
    {
      if path == "" {
        return None;
      }
      running := false;
      Cleanup();
      if killFails || waitFails {
        err := Some(StopFailed(killFails, waitFails));
      } else {
        err := None;
      }
    }

    /**
     * `Feed`, with the frame built as evidently intended: writes the frame of
     * the keys, reads one screen, and then either ends the game on a marker
     * (a win before a loss) or paints the screen. `sent` is what is written.
     */
    method Feed(keys: seq<K.Key>, p: Process) returns (err: Option<Failure>, sent: seq<Byte>)
      requires Ready() && Linked()
      modifies this, screen
      ensures Linked()
      ensures !old(piped) ==> err == Some(NotStarted) && sent == [] && unchanged(this) && unchanged(screen)
      ensures old(piped) ==> sent == Frame(Codes(keys))
      ensures old(piped) && (!p.Accepts || |p.Reply| < OutputSize) ==>
                err == Some(if p.Accepts then ReadFailed else WriteFailed) && unchanged(this) && unchanged(screen)
      ensures old(piped) && p.Accepts && |p.Reply| >= OutputSize ==>
                var data := p.Reply[..OutputSize];
                var v := Verdict(data);
                won == (old(won) || v == ResultWon) &&
                result == (if v == ResultUnknown then old(result) else v) &&
                (v == ResultUnknown ==> err.None? && Grid() == ScreenOf(data) && path == old(path)) &&
                (v != ResultUnknown ==> (path == "" && Grid() == old(Grid()) &&
                                         (err.None? <==> !p.KillFails && !p.WaitFails)))
    {
      if !piped {
        return Some(NotStarted), [];
      }
      var inp := Codes(keys);
      sent := Frame(inp);
      if !p.Accepts {
        return Some(WriteFailed), sent;
      }
      if |p.Reply| < OutputSize {
        return Some(ReadFailed), sent;
      }
      var data := p.Reply[..OutputSize];
      if Contains(data, WinMarker) {
        won := true;
        result := ResultWon;
        err := Stop(p.KillFails, p.WaitFails);
      } else if Contains(data, LoseMarker) {
        result := ResultLost;
        err := Stop(p.KillFails, p.WaitFails);
      } else {
        Paint(data);
        err := None;
      }
    }

    /** The loop over the reply: byte `i` colours cell (i / 64, i % 64). */
    method Paint(data: seq<Byte>)
      requires Ready() && |data| == OutputSize
      modifies screen
      ensures Grid() == ScreenOf(data)
    {
      var i := 0;
      while i < |data|
        invariant 0 <= i <= |data|
        invariant forall r, c :: 0 <= r < ScreenSize && 0 <= c < ScreenSize ==>
                    screen[r, c] == if r * ScreenSize + c < i then Palette(data[r * ScreenSize + c]) else old(screen[r, c])
      {
        screen[i / ScreenSize, i % ScreenSize] := Palette(data[i]);
        i := i + 1;
      }
      ScreensEqual(Grid(), ScreenOf(data));
    }
  }

  lemma ScreensEqual(g: seq<seq<Color>>, h: seq<seq<Color>>)
    requires IsScreen(g) && IsScreen(h)
    requires forall r, c :: 0 <= r < ScreenSize && 0 <= c < ScreenSize ==> g[r][c] == h[r][c]
    ensures g == h
  {
    forall r | 0 <= r < ScreenSize
      ensures g[r] == h[r]
    {
    }
  }
}
