/**
 * The crackme dialog program (`tasks/crackme/src/main.rs`): it reads one line,
 * trims it, and answers "gj" when the flag's eight four-byte chunks hash to
 * the eight stored values, "bj" otherwise. Rust strings are their UTF-8
 * bytes; slicing one off a character boundary panics.
 */
module Crackme {
  import opened Bytes
  import opened Wrappers
  import Dialogs

  // ---- The hash ------------------------------------------------------------

  const Multiplier: nat := 31337
  const Modulus: nat := 0x1_0000_0000_0000_0000

  function XorByte(a: Byte, c: Byte): Byte {
    ((a as bv8) ^ (c as bv8)) as int
  }

  /**
   * One step of the fold on a `u64` held as a number below 2^64: xor in the
   * byte, which only touches the low eight bits, then multiply modulo 2^64
   * (`wrapping_mul`).
   */
  function Mix(h: nat, c: Byte): (r: nat)
    ensures r < Modulus
  {
    ((h / 256 * 256 + XorByte(h % 256, c)) * Multiplier) % Modulus
  }

  /** The fold of `Mix` over `s`, starting from `h`. */
  function HashFrom(h: nat, s: seq<Byte>): nat
    decreases |s|
  {
    if s == [] then h else HashFrom(Mix(h, s[0]), s[1..])
  }

  /** `hash`. */
  function HashOf(s: seq<Byte>): nat {
    HashFrom(0, s)
  }

  /**
   * The fold read from the other end: `hash(s ++ [c])` mixes `c` into
   * `hash(s)`, and `hash([]) = 0`.
   */
  lemma {:induction false} HashSnoc(h: nat, s: seq<Byte>, c: Byte)
    ensures HashFrom(h, []) == h
    ensures HashFrom(h, s + [c]) == Mix(HashFrom(h, s), c)
    decreases |s|
  {
    if s == [] {
      assert s + [c] == [c];
      assert [c][1..] == [];
    } else {
      assert (s + [c])[0] == s[0];
      assert (s + [c])[1..] == s[1..] + [c];
      HashSnoc(Mix(h, s[0]), s[1..], c);
    }
  }

  /** The loop of `hash`, with its mutable accumulator. */
  method Hash(s: seq<Byte>) returns (h: nat)
    ensures h == HashOf(s)
  {
    h := 0;
    var i := 0;
    while i < |s|
      invariant 0 <= i <= |s|
      invariant h == HashOf(s[..i])
    {
      assert s[..i + 1] == s[..i] + [s[i]];
      HashSnoc(0, s[..i], s[i]);
      h := Mix(h, s[i]);
      i := i + 1;
    }
    assert s[..i] == s;
  }

  // ---- check_flag ------------------------------------------------------------

  const FlagLength: nat := 32

  const Target: seq<nat> := [
    11200688220910254682,
    11200380368408825194,
    16146349676620574858,
    11200565025114669588,
    12165273152048139049,
    9396870039570576529,
    18071888434317316754,
    14218471961505630534
  ]

  /** `str::is_char_boundary` on the bytes of a string: the ends, or a byte that does not continue a character. */
  predicate Boundary(b: seq<Byte>, k: int) {
    k == 0 || k == |b| || (0 < k < |b| && !(0x80 <= b[k] < 0xC0))
  }

  function Min(a: int, b: int): int {
    if a < b then a else b
  }

  /** How a call of `check_flag` ends: true, false, or a panic of the slice. */
  datatype Outcome = Accept | Reject | Panic

  /** The loop of `check_flag` from offset `i` on, for a flag of the right length. */
  function CheckFrom(b: seq<Byte>, i: nat): Outcome
    requires |b| == FlagLength && i % 4 == 0
    decreases |b| - i
  {
    if i >= |b| then Accept
    else if !Boundary(b, i) || !Boundary(b, Min(i + 4, |b|)) then Panic
    else if Target[i / 4] != HashOf(b[i..Min(i + 4, |b|)]) then Reject
    else CheckFrom(b, i + 4)
  }

  /** `check_flag` on the bytes of a flag. */
  function Judge(b: seq<Byte>): (r: Outcome)
    ensures |b| != FlagLength ==> r == Reject
  {
    if |b| != FlagLength then Reject else CheckFrom(b, 0)
  }

  /** The four-byte chunk `k` of a 32-byte flag. */
  function Chunk(b: seq<Byte>, k: nat): seq<Byte>
    requires |b| == FlagLength && k < 8
  {
    b[4 * k..4 * k + 4]
  }

  /** Chunk `k` matches its hash, and slicing at its start does not panic. */
  predicate ChunkOk(b: seq<Byte>, k: nat)
    requires |b| == FlagLength && k < 8
  {
    Boundary(b, 4 * k) && HashOf(Chunk(b, k)) == Target[k]
  }

  lemma {:induction false} CheckFromAccepts(b: seq<Byte>, j: nat)
    requires |b| == FlagLength && j <= 8
    ensures CheckFrom(b, 4 * j) == Accept <==> forall k :: j <= k < 8 ==> ChunkOk(b, k)
    decreases 8 - j
  {
    if j < 8 {
      CheckFromAccepts(b, j + 1);
      var i := 4 * j;
      CheckStep(b, j);
      ghost var later := forall k :: j + 1 <= k < 8 ==> ChunkOk(b, k);
      assert (forall k :: j <= k < 8 ==> ChunkOk(b, k)) == (ChunkOk(b, j) && later);
      if j + 1 < 8 {
        assert later ==> ChunkOk(b, j + 1);
      }
      assert later ==> Boundary(b, i + 4);
    }
  }

  /** One turn of the loop of `check_flag`: chunk `j` matches, the next offset is a boundary, and the rest accepts. */
  lemma CheckStep(b: seq<Byte>, j: nat)
    requires |b| == FlagLength && j < 8
    ensures CheckFrom(b, 4 * j) == Accept <==> ChunkOk(b, j) && Boundary(b, 4 * j + 4) && CheckFrom(b, 4 * j + 4) == Accept
  {
    var i := 4 * j;
    assert i / 4 == j;
    assert Min(i + 4, |b|) == i + 4 && b[i..i + 4] == Chunk(b, j);
  }

  /**
   * `check_flag` accepts exactly the 32-byte flags whose chunks all hash to
   * their targets. Chunks start at 0, 4, …, 28 and each has four bytes.
   */
  lemma Accepts(b: seq<Byte>)
    ensures Judge(b) == Accept <==> |b| == FlagLength && forall k :: 0 <= k < 8 ==> ChunkOk(b, k)
  {
    if |b| == FlagLength {
      CheckFromAccepts(b, 0);
    }
  }

  /** On an ASCII flag no slice panics: the verdict is accept or reject. */
  lemma {:induction false} AsciiNeverPanics(b: seq<Byte>, i: nat)
    requires |b| == FlagLength && i % 4 == 0
    requires forall j :: 0 <= j < |b| ==> b[j] < 0x80
    ensures CheckFrom(b, i) != Panic
    decreases |b| - i
  {
    if i < |b| {
      AsciiNeverPanics(b, i + 4);
    }
  }

  /** The loop of `check_flag`, returning at the first chunk that does not match. */
  method CheckFlag(b: seq<Byte>) returns (r: Outcome)
    ensures r == Judge(b)
  {
    if |b| != FlagLength {
      return Reject;
    }
    var i := 0;
    while i < |b|
      invariant 0 <= i <= |b| && i % 4 == 0
      invariant CheckFrom(b, i) == Judge(b)
      decreases |b| - i
    {
      var j := Min(i + 4, |b|);
      if !Boundary(b, i) || !Boundary(b, j) {
        return Panic;
      }
      var h := Hash(b[i..j]);
      if Target[i / 4] != h {
        return Reject;
      }
      i := i + 4;
    }
    r := Accept;
  }

  // ---- main ------------------------------------------------------------------

  /** `read_line`: up to and including the first newline, or everything when there is none. */
  function FirstLine(text: string): (line: string)
    ensures IsPrefix(line, text)
    ensures '\n' !in line[..|line| - 1 + (if line == [] then 1 else 0)]
    ensures line == text || (line != [] && line[|line| - 1] == '\n')
  {
    if text == [] then []
    else if text[0] == '\n' then ['\n']
    else [text[0]] + FirstLine(text[1..])
  }

  /** `main`: what the program prints, or `None` when `check_flag` panics. */
  function Main(text: string): (out: Option<string>)
    ensures out == Answer(Dialogs.TrimSpace(FirstLine(text)))
    ensures out.Some? <==> Judge(Utf8(Dialogs.TrimSpace(FirstLine(text)))) != Panic
    ensures out.Some? ==> (out.value == "gj\n" <==> Judge(Utf8(Dialogs.TrimSpace(FirstLine(text)))) == Accept)
    ensures out.Some? ==> out.value in {"gj\n", "bj\n"}
  {
    Answer(Dialogs.TrimSpace(FirstLine(text)))
  }

  /** The line `main` prints for a trimmed flag: "gj" on acceptance, "bj" on rejection, nothing on a panic. */
  function Answer(flag: string): (out: Option<string>)
    ensures out.Some? <==> Judge(Utf8(flag)) != Panic
    ensures out.Some? ==> (out.value == "gj\n" <==> Judge(Utf8(flag)) == Accept) && out.value in {"gj\n", "bj\n"}
  {
    match Judge(Utf8(flag))
    case Accept => Some("gj\n")
    case Reject => Some("bj\n")
    case Panic => None
  }

  /**
   * The crackme NPC's dialog, which trims the output and compares it with
   * "gj", is satisfied exactly when the trimmed first line is accepted.
   */
  lemma AnswerMatchesTarget(text: string)
    requires Main(text).Some?
    ensures Dialogs.TrimSpace(Main(text).value) == "gj" <==> Judge(Utf8(Dialogs.TrimSpace(FirstLine(text)))) == Accept
  {
    var flag := Dialogs.TrimSpace(FirstLine(text));
    assert Main(text) == Answer(flag);
    var w := if Judge(Utf8(flag)) == Accept then "gj" else "bj";
    assert Main(text).value == w + "\n";
    PrintedWord(w);
  }

  /** `println!` adds a newline, which the dialog trims off again. */
  lemma PrintedWord(w: string)
    requires w == "gj" || w == "bj"
    ensures Dialogs.TrimSpace(w + "\n") == w
  {
    Dialogs.VerdictIgnoresSurroundingSpace(Dialogs.State("", false, false), w, "", "\n");
    assert "" + w + "\n" == w + "\n";
  }

  /** White space around the flag and anything after the first line are ignored. */
  lemma LineIsTrimmed(pre: string, flag: string, post: string, later: string)
    requires forall i :: 0 <= i < |pre| ==> Dialogs.IsSpace(pre[i]) && pre[i] != '\n'
    requires forall i :: 0 <= i < |post| ==> Dialogs.IsSpace(post[i]) && post[i] != '\n'
    requires forall i :: 0 <= i < |flag| ==> flag[i] != '\n'
    requires flag == [] || (!Dialogs.IsSpace(flag[0]) && !Dialogs.IsSpace(flag[|flag| - 1]))
    ensures Main(pre + flag + post + "\n" + later) == Main(flag)
  {
    var text := pre + flag + post + "\n" + later;
    var line := pre + flag + (post + "\n");
    assert text == line + later;
    PaddedLine(pre, flag, post, later);
    TrimmedLine(pre, flag, post);
    NoNewline(flag);
    Dialogs.TrimSpaceKeepsWords(flag);
    assert Main(text) == Answer(flag);
  }

  lemma PaddedLine(pre: string, flag: string, post: string, later: string)
    requires forall i :: 0 <= i < |pre| ==> pre[i] != '\n'
    requires forall i :: 0 <= i < |post| ==> post[i] != '\n'
    requires forall i :: 0 <= i < |flag| ==> flag[i] != '\n'
    ensures FirstLine(pre + flag + (post + "\n") + later) == pre + flag + (post + "\n")
  {
    var line := pre + flag + (post + "\n");
    forall i | 0 <= i < |line| - 1
      ensures line[i] != '\n'
    {
      if i < |pre| {
        assert line[i] == pre[i];
      } else if i < |pre| + |flag| {
        assert line[i] == flag[i - |pre|];
      } else {
        assert line[i] == post[i - |pre| - |flag|];
      }
    }
    LineEnds(line, later);
  }

  lemma TrimmedLine(pre: string, flag: string, post: string)
    requires forall i :: 0 <= i < |pre| ==> Dialogs.IsSpace(pre[i])
    requires forall i :: 0 <= i < |post| ==> Dialogs.IsSpace(post[i])
    requires flag == [] || (!Dialogs.IsSpace(flag[0]) && !Dialogs.IsSpace(flag[|flag| - 1]))
    ensures Dialogs.TrimSpace(pre + flag + (post + "\n")) == flag
  {
    var rest := post + "\n";
    forall i | 0 <= i < |rest|
      ensures Dialogs.IsSpace(rest[i])
    {
      if i < |post| {
        assert rest[i] == post[i];
      }
    }
    Dialogs.VerdictIgnoresSurroundingSpace(Dialogs.State("", false, false), flag, pre, rest);
  }

  /** A line that ends in its only newline is the first line of any text it starts. */
  lemma {:induction false} LineEnds(line: string, later: string)
    requires line != [] && line[|line| - 1] == '\n'
    requires forall i :: 0 <= i < |line| - 1 ==> line[i] != '\n'
    ensures FirstLine(line + later) == line
    decreases |line|
  {
    assert (line + later)[0] == line[0];
    if |line| > 1 {
      assert (line + later)[1..] == line[1..] + later;
      LineEnds(line[1..], later);
    }
  }

  /** A text without a newline is its own first line. */
  lemma {:induction false} NoNewline(s: string)
    requires forall i :: 0 <= i < |s| ==> s[i] != '\n'
    ensures FirstLine(s) == s
    decreases |s|
  {
    if s != [] {
      NoNewline(s[1..]);
    }
  }
}
