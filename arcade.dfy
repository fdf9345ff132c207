/**
 * What every arcade game shows the engine (`arcade/game.go`): a 64 by 64
 * screen of colours, whether the game was won, and the result so far.
 */
module Arcades {
  import opened Bytes

  const ScreenSize: nat := 64

  datatype Result = ResultUnknown | ResultWon | ResultLost

  /**
   * A screen colour: unset (the zero value of the interface), an RGBA value,
   * or entry `Index` of the 256-colour xterm table, whose values are not
   * part of this model.
   */
  datatype Color = NoColor | Rgba(R: Byte, G: Byte, B: Byte, A: Byte) | Palette(Index: Byte)

  datatype State = State(Won: bool, Result: Result, Screen: seq<seq<Color>>)

  /** A `ScreenSize` by `ScreenSize` grid, indexed by row, then column. */
  predicate IsScreen<T>(g: seq<seq<T>>) {
    |g| == ScreenSize && forall r :: 0 <= r < |g| ==> |g[r]| == ScreenSize
  }

  /** A screen as the byte stream a game writes: the rows one after the other. */
  function Flatten(g: seq<seq<Byte>>): (out: seq<Byte>)
  {
    if g == [] then [] else Flatten(g[..|g| - 1]) + g[|g| - 1]
  }

  /** The printed screen has 4096 bytes, in row-major order. */
  lemma {:induction false} FlattenLayout(g: seq<seq<Byte>>)
    requires forall y :: 0 <= y < |g| ==> |g[y]| == ScreenSize
    ensures |Flatten(g)| == |g| * ScreenSize
    ensures forall y, x :: 0 <= y < |g| && 0 <= x < ScreenSize ==> Flatten(g)[y * ScreenSize + x] == g[y][x]
  {
    if g != [] {
      var n := |g| - 1;
      FlattenLayout(g[..n]);
      forall y, x | 0 <= y < |g| && 0 <= x < ScreenSize
        ensures Flatten(g)[y * ScreenSize + x] == g[y][x]
      {
        if y < n {
          assert y * ScreenSize + x < n * ScreenSize;
          assert g[..n][y] == g[y];
        } else {
          assert y * ScreenSize + x == n * ScreenSize + x;
        }
      }
    }
  }
}
