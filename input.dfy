/**
 * Keyboard input of one tick. The input package is not part of this model:
 * a tick's input is the set of keys held down and the keys that went down
 * this tick, in order; a key is newly pressed exactly when it went down this tick.
 */
module Input {

  /** The keys the programs look at; every other key is `Other`. `Up`/`Down` are the arrow keys. */
  datatype Key =
    | A | D | E | M | P | R | S | W
    | Space | Escape | Enter | Backspace
    | ArrowUp | ArrowDown | ArrowLeft | ArrowRight
    | Other(code: nat)

  datatype Input = Input(Pressed: set<Key>, JustPressed: seq<Key>) {

    predicate IsKeyPressed(k: Key) { k in Pressed }

    predicate IsKeyNewlyPressed(k: Key) { k in JustPressed }

    function JustPressedKeys(): seq<Key> { JustPressed }
  }
}
