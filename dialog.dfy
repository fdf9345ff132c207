/**
 * Dialog back-ends driven by an external program. The program itself is not
 * modelled: what it prints, and whether starting, writing to or reading from
 * it succeeds, are parameters of the operations.
 */
module Dialogs {
  import opened Wrappers
  import opened Bytes
  import Hex

  /** What a dialog shows and whether it has handed over its item or ended. */
  datatype State = State(Text: string, GaveItem: bool, Finished: bool)

  // ---- Text helpers ---------------------------------------------------------

  /** The characters Go's `unicode.IsSpace` accepts. */
  const SpaceChars: set<char> := {
    ' ', '\t', '\n', '\U{000B}', '\U{000C}', '\r', '\U{0085}', '\U{00A0}', '\U{1680}',
    '\U{2000}', '\U{2001}', '\U{2002}', '\U{2003}', '\U{2004}', '\U{2005}', '\U{2006}',
    '\U{2007}', '\U{2008}', '\U{2009}', '\U{200A}',
    '\U{2028}', '\U{2029}', '\U{202F}', '\U{205F}', '\U{3000}'
  }

  /** Go's `unicode.IsSpace`. */
  predicate IsSpace(c: char) {
    c in SpaceChars
  }

  /** The first index at or after `i` that does not hold white space (or `|s|`). */
  function SpaceEnd(s: string, i: nat): (j: nat)
    requires i <= |s|
    ensures i <= j <= |s| && (j == |s| || !IsSpace(s[j]))
    ensures forall k :: i <= k < j ==> IsSpace(s[k])
    decreases |s| - i
  {
    if i == |s| || !IsSpace(s[i]) then i else SpaceEnd(s, i + 1)
  }

  /** The end of `s[i..j]` once its trailing white space is cut off. */
  function TextEnd(s: string, i: nat, j: nat): (e: nat)
    requires i <= j <= |s|
    ensures i <= e <= j && (e == i || !IsSpace(s[e - 1]))
    ensures forall k :: e <= k < j ==> IsSpace(s[k])
    decreases j - i
  {
    if j == i || !IsSpace(s[j - 1]) then j else TextEnd(s, i, j - 1)
  }

  /** `r` is `s[i..j]` and everything of `s` outside `i..j` is white space. */
  predicate CutSpace(s: string, r: string, i: int, j: int) {
    0 <= i <= j <= |s| && r == s[i..j] &&
    (forall k :: 0 <= k < i ==> IsSpace(s[k])) &&
    (forall k :: j <= k < |s| ==> IsSpace(s[k]))
  }

  /**
   * `strings.TrimSpace`: the longest infix of `s` that neither starts nor
   * ends with white space; everything cut off is white space.
   */
  function TrimSpace(s: string): (r: string)
    ensures exists i, j :: CutSpace(s, r, i, j)
    ensures r == [] || (!IsSpace(r[0]) && !IsSpace(r[|r| - 1]))
  {
    var i := SpaceEnd(s, 0);
    var j := TextEnd(s, i, |s|);
    assert CutSpace(s, s[i..j], i, j);
    s[i..j]
  }

  /**
   * Cutting white space is determined by what it keeps: whenever `t` has no
   * white space at either end and only white space surrounds it, `TrimSpace`
   * gives back exactly `t`.
   */
  lemma TrimSpaceAround(pre: string, t: string, post: string)
    requires forall k :: 0 <= k < |pre| ==> IsSpace(pre[k])
    requires forall k :: 0 <= k < |post| ==> IsSpace(post[k])
    requires t == [] || (!IsSpace(t[0]) && !IsSpace(t[|t| - 1]))
    ensures TrimSpace(pre + t + post) == t
  {
    var s := pre + t + post;
    var i := SpaceEnd(s, 0);
    var j := TextEnd(s, i, |s|);
    var a, b := |pre|, |pre| + |t|;
    forall k | 0 <= k < a ensures IsSpace(s[k]) {
      assert s[k] == pre[k];
    }
    forall k | b <= k < |s| ensures IsSpace(s[k]) {
      assert s[k] == post[k - b];
    }
    if t == [] {
      assert i == |s| && j == |s|;
    } else {
      assert s[a] == t[0] && s[b - 1] == t[|t| - 1];
      assert i == a;
      assert j == b;
      assert s[a..b] == t;
    }
  }

  lemma TrimSpaceKeepsWords(s: string)
    requires s == [] || (!IsSpace(s[0]) && !IsSpace(s[|s| - 1]))
    ensures TrimSpace(s) == s
  {
    TrimSpaceAround([], s, []);
    assert [] + s + [] == s;
  }

  /**
   * The message `hex.DecodeString` fails with. An invalid byte is reported
   * as `%#U` of the rune with the byte's value, so it is always below 256.
   */
  function HexErrorText(e: Hex.HexError): (t: string)
    requires e.InvalidByte? ==> e.c as int < 256
    ensures e.OddLength? <==> t == "encoding/hex: odd length hex string"
  {
    match e
    case OddLength => "encoding/hex: odd length hex string"
    case InvalidByte(c) => "encoding/hex: invalid byte: " + CodePoint(c)
  }

  /**
   * `%#U` of a rune below 256: "U+" and four uppercase hex digits, then the
   * rune in quotes when `strconv.IsPrint` holds for it.
   */
  function CodePoint(c: char): (t: string)
    requires c as int < 256
    ensures |t| == (if IsPrintLatin1(c) then 10 else 6)
    ensures t[..2] == "U+" && (IsPrintLatin1(c) ==> t[6..] == [' ', '\'', c, '\''])
  {
    assert Pow16(2) == 256 && Pow16(4) == 16 * 16 * Pow16(2);
    "U+" + UpperHex(c as nat, 4) + (if IsPrintLatin1(c) then " '" + [c] + "'" else "")
  }

  /**
   * `strconv.IsPrint` on U+0000 to U+00FF: the ASCII space and graphic
   * characters, and Latin-1 from U+00A1 on except the soft hyphen U+00AD.
   */
  predicate IsPrintLatin1(c: char) {
    ' ' <= c <= '~' || ('\U{00A1}' <= c <= '\U{00FF}' && c != '\U{00AD}')
  }

  function UpperHex(n: nat, width: nat): (s: string)
    ensures |s| >= width
    ensures n < Pow16(width) ==> |s| == width
    decreases width + n
  {
    if n == 0 && width == 0 then []
    else
      var d := n % 16;
      var digit := if d < 10 then ('0' as int + d) as char else ('A' as int + d - 10) as char;
      UpperHex(n / 16, if width > 0 then width - 1 else 0) + [digit]
  }
  function Pow16(k: nat): nat {
    if k == 0 then 1 else 16 * Pow16(k - 1)
  }


  // ---- BinaryDialog ---------------------------------------------------------

  /**
   * What `hex.DecodeString` scans: the answer's UTF-8 bytes, each as the
   * character with the byte's value.
   */
  function HexDigits(input: string): (d: string)
    ensures |d| == |Utf8(input)|
    ensures forall i :: 0 <= i < |d| ==> d[i] as int == Utf8(input)[i]
  {
    var b := Utf8(input);
    seq(|b|, i requires 0 <= i < |b| => b[i] as char)
  }

  /** An ASCII answer is scanned character by character. */
  lemma AsciiHexDigits(input: string)
    requires forall i :: 0 <= i < |input| ==> input[i] as int < 0x80
    ensures HexDigits(input) == input
  {
  }

  /** What the program receives on its standard input. */
  datatype Stdin = TextInput(text: string) | ByteInput(bytes: seq<Byte>)

  /**
   * `getBinaryOutput`: in hex mode the input is decoded first and a decoding
   * error is the result; otherwise the program runs (`run`) on the input.
   */
  function BinaryOutput(hex: bool, input: string, run: Stdin -> Result<string, string>): (r: Result<string, string>)
    ensures hex && Hex.Decode(HexDigits(input)).Failure? ==> r.Failure?
    ensures hex && Hex.Decode(HexDigits(input)).Success? ==> r == run(ByteInput(Hex.Decode(HexDigits(input)).value))
    ensures !hex ==> r == run(TextInput(input))
  {
    if hex then
      match Hex.Decode(HexDigits(input))
      case Failure(e) => Failure(HexErrorText(e))
      case Success(b) => run(ByteInput(b))
    else run(TextInput(input))
  }

  /**
   * The verdict `BinaryDialog.Feed` appends for an outcome: an error line, or
   * the comparison of the trimmed output with the target.
   */
  function Verdict(s: State, target: string, out: Result<string, string>): (t: State)
    ensures IsPrefix(s.Text, t.Text) && |t.Text| > |s.Text|
    ensures t.GaveItem <==> s.GaveItem || (out.Success? && TrimSpace(out.value) == target)
    ensures t.Finished <==> s.Finished || (out.Success? && TrimSpace(out.value) == target)
    ensures out.Failure? ==> t == s.(Text := s.Text + "\n Encountered error '" + out.error + "'!")
  {
    match out
    case Failure(err) => s.(Text := s.Text + "\n Encountered error '" + err + "'!")
    case Success(o) =>
      if TrimSpace(o) != target then s.(Text := s.Text + "\n incorrect!")
      else State(s.Text + "\n correct!", true, true)
  }

  /** A dialog that runs the program once per answer and compares its output with a target. */
  class BinaryDialog {
    var s: State
    const hex: bool
    const greet: string
    const target: string

    /** `NewBinary`. */
    constructor (greet: string, target: string, hex: bool)
      ensures s == State("", false, false)
      ensures this.greet == greet && this.target == target && this.hex == hex
    {
      s := State("", false, false);
      this.greet := greet;
      this.target := target;
      this.hex := hex;
    }

    /** Shows the greeting; the flags are kept. */
    method Greeting()
      modifies this
      ensures s == old(s).(Text := greet)
    {
      s := s.(Text := greet);
    }

    method Feed(text: string, run: Stdin -> Result<string, string>)
      modifies this
      ensures s == Verdict(old(s), target, BinaryOutput(hex, text, run))
    {
      var output := BinaryOutput(hex, text, run);
      s := Verdict(s, target, output);
    }

    /** `SetState`: restores a saved dialog state. */
    method SetState(t: State)
      modifies this
      ensures s == t
    {
      s := t;
    }
  }

  /** In hex mode, an answer written as the encoding of `b` feeds the program exactly `b`. */
  lemma HexAnswerFeedsBytes(b: seq<Byte>, run: Stdin -> Result<string, string>)
    ensures BinaryOutput(true, Hex.Encode(b), run) == run(ByteInput(b))
  {
    Hex.EncodeLowercase(b);
    AsciiHexDigits(Hex.Encode(b));
    Hex.DecodeEncode(b);
  }

  /**
   * An answer starting with a non-ASCII character is rejected at its first
   * UTF-8 byte, which is reported as a rune from U+00C0 to U+00FF.
   */
  lemma NonAsciiAnswerReportsLeadingByte(input: string, run: Stdin -> Result<string, string>)
    requires input != [] && input[0] as int >= 0x80
    ensures var lead := CharBytes(input[0])[0];
            0xC0 <= lead < 256 &&
            BinaryOutput(true, input, run) == Failure("encoding/hex: invalid byte: " + CodePoint(lead as char))
  {
    var d := HexDigits(input);
    assert Utf8(input) == CharBytes(input[0]) + Utf8(input[1..]);
    assert d[0] as int == CharBytes(input[0])[0];
    assert !Hex.IsDigit(d[0]);
  }

  /** `%#U` quotes a printable rune and leaves out a control character. */
  lemma CodePointExamples()
    ensures CodePoint('\U{00C3}') == "U+00C3 '\U{00C3}'"
    ensures CodePoint('\t') == "U+0009"
  {
    assert UpperHex(0, 2) == "00";
    assert UpperHex(0xC3, 4) == UpperHex(0xC, 3) + "3" == UpperHex(0, 2) + "C3";
    assert UpperHex(9, 4) == UpperHex(0, 3) + "9" == UpperHex(0, 2) + "09";
  }

  /** An answer that is not hex never reaches the program: the dialog only reports the error. */
  lemma InvalidHexIsReported(s: State, target: string, input: string, run: Stdin -> Result<string, string>)
    requires Hex.Decode(HexDigits(input)).Failure?
    ensures var t := Verdict(s, target, BinaryOutput(true, input, run));
            t.GaveItem == s.GaveItem && t.Finished == s.Finished &&
            t.Text == s.Text + "\n Encountered error '" + HexErrorText(Hex.Decode(HexDigits(input)).error) + "'!"
  {
  }

  /** White space around the program's answer does not matter. */
  lemma VerdictIgnoresSurroundingSpace(s: State, target: string, pre: string, post: string)
    requires forall i :: 0 <= i < |pre| ==> IsSpace(pre[i])
    requires forall i :: 0 <= i < |post| ==> IsSpace(post[i])
    requires target == [] || (!IsSpace(target[0]) && !IsSpace(target[|target| - 1]))
    ensures TrimSpace(pre + target + post) == target
    ensures Verdict(s, target, Success(pre + target + post)) == State(s.Text + "\n correct!", true, true)
  {
    TrimSpaceAround(pre, target, post);
  }

  // ---- InteractiveBinary ----------------------------------------------------

  /** Where the child process stands: none, created but not started, or running. */
  datatype Process = NoProcess | Created | Started

  /** How `restart` went: which of the three steps failed, if any. */
  datatype Launch = StdinPipeFails | StdoutPipeFails | StartFails | Launched

  /** What one read from the program's output gives. */
  datatype ReadResult = ReadFailed | ReadData(data: string)

  /** The size of the read buffer in `getOutput`. */
  const ReadBufferSize: nat := 1024

  /** Everything the interactive dialog keeps between calls. */
  datatype Session = Session(s: State, Proc: Process, HasWriter: bool, HasReader: bool) {

    /** `stopBinary`: closes both pipes; a started process is killed and forgotten. */
    function Stop(): (t: Session)
      ensures !t.HasWriter && !t.HasReader && t.s == s
      ensures t.Proc == (if Proc == Started then NoProcess else Proc)
    {
      Session(s, if Proc == Started then NoProcess else Proc, false, false)
    }

    /** `restart`: stops, then creates the command and opens its pipes until a step fails. */
    function Restart(launch: Launch): (t: Session)
      ensures t.Proc != NoProcess
      ensures t.Proc == Started <==> launch == Launched
      ensures t.HasWriter <==> launch != StdinPipeFails
      ensures t.HasReader <==> launch == StartFails || launch == Launched
      ensures t.s.GaveItem == s.GaveItem && t.s.Finished == s.Finished
    {
      var e := s.(Text := s.Text + "\n Encountered error!");
      match launch
      case StdinPipeFails => Session(e, Created, false, false)
      case StdoutPipeFails => Session(e, Created, true, false)
      case StartFails => Session(e, Created, true, true)
      case Launched => Session(s, Started, true, true)
    }

    /** `getOutput`: at most one buffer of output, or an error text. */
    function Output(read: ReadResult): (o: string)
      ensures |o| <= ReadBufferSize
      ensures HasReader && read.ReadData? ==> IsPrefix(o, read.data)
    {
      if !HasReader then "Error: No reader set."
      else match read
        case ReadFailed => "read error"
        case ReadData(d) => if |d| <= ReadBufferSize then d else d[..ReadBufferSize]
    }

    /** `Greeting`: shows the greeting, restarts the program and appends its first output. */
    function Greeting(greet: string, launch: Launch, read: ReadResult): Session {
      var t := this.(s := s.(Text := greet, Finished := false)).Restart(launch);
      t.(s := t.s.(Text := t.s.Text + "\n" + t.Output(read)))
    }

    /**
     * What `Feed` does after the write: read once, finish on any marker,
     * hand over the item on the target, and append the output.
     */
    function Respond(target: string, markers: seq<string>, read: ReadResult): Session {
      var out := Output(read);
      var finish := exists m | m in markers :: Contains(out, m);
      var t := if finish then this.(s := s.(Finished := true)).Stop() else this;
      t.(s := t.s.(Text := t.s.Text + "\n" + out, GaveItem := t.s.GaveItem || Contains(out, target)))
    }

    /**
     * `Feed`, with the missing-writer case returning after its error line,
     * as the other error cases do.
     */
    function Feed(target: string, markers: seq<string>, writeOk: bool, read: ReadResult): Session {
      if Proc == NoProcess then this.(s := s.(Text := s.Text + "\n Error: No binary running."))
      else if !HasWriter then this.(s := s.(Text := s.Text + "\n Error: No writer set."))
      else
        var t := if writeOk then this else this.(s := s.(Text := s.Text + "\n Write error."));
        t.Respond(target, markers, read)
    }

    /**
     * `Feed` as written: after reporting the missing writer it still calls
     * `Write` on the nil writer, which panics (`None`).
     */
    function FeedAsWritten(target: string, markers: seq<string>, writeOk: bool, read: ReadResult): Option<Session> {
      if Proc == NoProcess then Some(this.(s := s.(Text := s.Text + "\n Error: No binary running.")))
      else if !HasWriter then None
      else
        var t := if writeOk then this else this.(s := s.(Text := s.Text + "\n Write error."));
        Some(t.Respond(target, markers, read))
    }
  }

  /** A dialog with a long-running program that is written one line per answer. */
  class InteractiveBinary {
    var s: State
    var proc: Process
    var hasWriter: bool
    var hasReader: bool
    const greet: string
    const target: string
    const finishMarkers: seq<string>

    function Abs(): Session
      reads this
    {
      Session(s, proc, hasWriter, hasReader)
    }

    /** `NewInteractiveBinary`: nothing is running yet. */
    constructor (greet: string, target: string, finishMarkers: seq<string>)
      ensures Abs() == Session(State("", false, false), NoProcess, false, false)
      ensures this.greet == greet && this.target == target && this.finishMarkers == finishMarkers
    {
      s := State("", false, false);
      proc := NoProcess;
      hasWriter := false;
      hasReader := false;
      this.greet := greet;
      this.target := target;
      this.finishMarkers := finishMarkers;
    }

    method StopBinary()
      modifies this
      ensures Abs() == old(Abs()).Stop()
    {
      hasWriter := false;
      hasReader := false;
      if proc == Started {
        proc := NoProcess;
      }
    }

    method Restart(launch: Launch)
      modifies this
      ensures Abs() == old(Abs()).Restart(launch)
    {
      StopBinary();
      proc := Created;
      if launch == StdinPipeFails {
        s := s.(Text := s.Text + "\n Encountered error!");
        return;
      }
      hasWriter := true;
      if launch == StdoutPipeFails {
        s := s.(Text := s.Text + "\n Encountered error!");
        return;
      }
      hasReader := true;
      if launch == StartFails {
        s := s.(Text := s.Text + "\n Encountered error!");
        return;
      }
      proc := Started;
    }

    method GetOutput(read: ReadResult) returns (out: string)
      ensures out == Abs().Output(read)
    {
      if !hasReader {
        return "Error: No reader set.";
      }
      match read
      case ReadFailed => out := "read error";
      case ReadData(d) =>
        out := d;
        if |d| > ReadBufferSize {
          out := d[..ReadBufferSize];
        }
    }

    method Greeting(launch: Launch, read: ReadResult)
      modifies this
      ensures Abs() == old(Abs()).Greeting(greet, launch, read)
    {
      s := s.(Text := greet, Finished := false);
      Restart(launch);
      var out := GetOutput(read);
      s := s.(Text := s.Text + "\n" + out);
    }

    /** Sends one answer; `write` says whether writing `text` and a newline succeeds. */
    method Feed(text: string, write: string -> bool, read: ReadResult)
      modifies this
      ensures Abs() == old(Abs()).Feed(target, finishMarkers, write(text + "\n"), read)
    {
      if proc == NoProcess {
        s := s.(Text := s.Text + "\n Error: No binary running.");
        return;
      }
      if !hasWriter {
        s := s.(Text := s.Text + "\n Error: No writer set.");
        return;
      }
      if !write(text + "\n") {
        s := s.(Text := s.Text + "\n Write error.");
      }
      Respond(read);
    }

    /** The part of `Feed` after the write. */
    method Respond(read: ReadResult)
      modifies this
      ensures Abs() == old(Abs()).Respond(target, finishMarkers, read)
    {
      var out := GetOutput(read);
      CheckMarkers(out);
      if Contains(out, target) {
        s := s.(GaveItem := true);
      }
      s := s.(Text := s.Text + "\n" + out);
    }

    /** The loop over the finish markers: any marker in `out` finishes the dialog and stops the program. */
    method CheckMarkers(out: string)
      modifies this
      ensures (exists m | m in finishMarkers :: Contains(out, m)) ==> Abs() == old(Abs()).(s := old(s).(Finished := true)).Stop()
      ensures !(exists m | m in finishMarkers :: Contains(out, m)) ==> Abs() == old(Abs())
    {
      ghost var before := Abs();
      var i := 0;
      ghost var found := false;
      while i < |finishMarkers|
        invariant 0 <= i <= |finishMarkers|
        invariant found <==> exists m | m in finishMarkers[..i] :: Contains(out, m)
        invariant found ==> Abs() == before.(s := before.s.(Finished := true)).Stop()
        invariant !found ==> Abs() == before
      {
        if Contains(out, finishMarkers[i]) {
          s := s.(Finished := true);
          StopBinary();
          found := true;
        }
        assert finishMarkers[..i + 1] == finishMarkers[..i] + [finishMarkers[i]];
        i := i + 1;
      }
      assert finishMarkers[..i] == finishMarkers;
    }

    method SetState(t: State)
      modifies this
      ensures Abs() == old(Abs()).(s := t)
    {
      s := t;
    }
  }

  // ---- Properties of the interactive dialog ---------------------------------

  /** The greeting restarts the dialog's text and its end, but an item once given stays given. */
  lemma GreetingResets(d: Session, greet: string, launch: Launch, read: ReadResult)
    ensures var t := d.Greeting(greet, launch, read);
            IsPrefix(greet, t.s.Text) && !t.s.Finished && t.s.GaveItem == d.s.GaveItem
    ensures launch == Launched ==>
              d.Greeting(greet, launch, read).s.Text == greet + "\n" + d.Restart(launch).Output(read) &&
              d.Greeting(greet, launch, read).Proc == Started
  {
  }

  /** Feeding only appends to the text and never clears a flag. */
  lemma FeedIsMonotone(d: Session, target: string, markers: seq<string>, writeOk: bool, read: ReadResult)
    ensures var t := d.Feed(target, markers, writeOk, read);
            IsPrefix(d.s.Text, t.s.Text) && |t.s.Text| > |d.s.Text| &&
            (d.s.GaveItem ==> t.s.GaveItem) && (d.s.Finished ==> t.s.Finished)
  {
    if d.Proc != NoProcess && d.HasWriter {
      var u := if writeOk then d else d.(s := d.s.(Text := d.s.Text + "\n Write error."));
      assert u.s.Text[..|d.s.Text|] == d.s.Text;
      RespondIsMonotone(u, target, markers, read);
      var t := u.Respond(target, markers, read);
      assert t.s.Text[..|d.s.Text|] == t.s.Text[..|u.s.Text|][..|d.s.Text|];
    } else {
      var t := d.Feed(target, markers, writeOk, read);
      assert t.s.Text[..|d.s.Text|] == d.s.Text;
    }
  }

  /** Responding appends a line to the text and never clears a flag. */
  lemma RespondIsMonotone(d: Session, target: string, markers: seq<string>, read: ReadResult)
    ensures var t := d.Respond(target, markers, read);
            t.s.Text == d.s.Text + "\n" + d.Output(read) &&
            (d.s.GaveItem ==> t.s.GaveItem) && (d.s.Finished ==> t.s.Finished)
  {
  }

  /** Without a program, a feed only reports that. */
  lemma FeedWithoutProgram(d: Session, target: string, markers: seq<string>, writeOk: bool, read: ReadResult)
    requires d.Proc == NoProcess
    ensures d.Feed(target, markers, writeOk, read) == d.(s := d.s.(Text := d.s.Text + "\n Error: No binary running."))
  {
  }

  /** With a writer, the dialog ends exactly when the output shows a marker, and gives the item exactly on the target. */
  lemma FeedFlags(d: Session, target: string, markers: seq<string>, writeOk: bool, read: ReadResult)
    requires d.Proc != NoProcess && d.HasWriter
    ensures var t := d.Feed(target, markers, writeOk, read);
            var out := d.Output(read);
            (t.s.Finished <==> d.s.Finished || exists m | m in markers :: Contains(out, m)) &&
            (t.s.GaveItem <==> d.s.GaveItem || Contains(out, target)) &&
            ((exists m | m in markers :: Contains(out, m)) ==> !t.HasWriter && !t.HasReader && t.Proc != Started)
  {
  }

  /** The corrected feed agrees with the code as written wherever the latter does not panic. */
  lemma FeedAgreesWhereDefined(d: Session, target: string, markers: seq<string>, writeOk: bool, read: ReadResult)
    ensures d.FeedAsWritten(target, markers, writeOk, read).None? <==> d.Proc != NoProcess && !d.HasWriter
    ensures d.FeedAsWritten(target, markers, writeOk, read).Some? ==>
              d.FeedAsWritten(target, markers, writeOk, read).value == d.Feed(target, markers, writeOk, read)
  {
  }

  /**
   * The panic is reachable: when `StdinPipe` fails during the greeting, the
   * command exists but the writer is nil, so the next answer panics as
   * written, while the corrected feed reports the missing writer.
   */
  lemma NilWriterAfterFailedGreeting(d: Session, greet: string, read: ReadResult, target: string,
                                     markers: seq<string>, writeOk: bool, read2: ReadResult)
    ensures var g := d.Greeting(greet, StdinPipeFails, read);
            g.FeedAsWritten(target, markers, writeOk, read2).None? &&
            g.Feed(target, markers, writeOk, read2) == g.(s := g.s.(Text := g.s.Text + "\n Error: No writer set."))
  {
  }
}
