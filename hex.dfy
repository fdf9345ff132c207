/** Base16 as in section 8 of RFC 4648: lowercase on output, either case on input. */
module Hex {
  import opened Wrappers
  import opened Bytes

  /** Why decoding failed: a character that is not a hex digit, or an odd number of digits. */
  datatype HexError = InvalidByte(c: char) | OddLength

  /** The lowercase digit of a nibble. */
  function Digit(v: nat): (c: char)
    requires v < 16
    ensures IsLowerDigit(c)
  {
    if v < 10 then ('0' as int + v) as char else ('a' as int + v - 10) as char
  }

  predicate IsLowerDigit(c: char) {
    '0' <= c <= '9' || 'a' <= c <= 'f'
  }

  /** The value of a hex digit in either case, or `None`. */
  function DigitValue(c: char): (v: Option<nat>)
    ensures v.Some? ==> v.value < 16
    ensures v.Some? <==> ('0' <= c <= '9' || 'a' <= c <= 'f' || 'A' <= c <= 'F')
  {
    if '0' <= c <= '9' then Some(c as nat - '0' as nat)
    else if 'a' <= c <= 'f' then Some(c as nat - 'a' as nat + 10)
    else if 'A' <= c <= 'F' then Some(c as nat - 'A' as nat + 10)
    else None
  }

  predicate IsDigit(c: char) { DigitValue(c).Some? }

  /** `hex.EncodeToString`: two lowercase digits per byte, high nibble first. */
  function Encode(b: seq<Byte>): (s: string)
    ensures |s| == 2 * |b|
    decreases |b|
  {
    if b == [] then []
    else [Digit(b[0] / 16), Digit(b[0] % 16)] + Encode(b[1..])
  }

  /** The byte two digits stand for. */
  function PairValue(hi: char, lo: char): (b: Byte)
    requires IsDigit(hi) && IsDigit(lo)
  {
    DigitValue(hi).value * 16 + DigitValue(lo).value
  }

  /**
   * `hex.DecodeString`: pairs are checked left to right, the first invalid
   * character is reported, and an odd length is reported only when the
   * characters scanned are valid.
   */
  function Decode(s: string): (r: Result<seq<Byte>, HexError>)
    ensures r.Success? ==> 2 * |r.value| == |s|
    ensures r.Failure? && r.error.InvalidByte? ==> r.error.c in s && !IsDigit(r.error.c)
    decreases |s|
  {
    if |s| == 0 then Success([])
    else if |s| == 1 then
      if !IsDigit(s[0]) then Failure(InvalidByte(s[0])) else Failure(OddLength)
    else if !IsDigit(s[0]) then Failure(InvalidByte(s[0]))
    else if !IsDigit(s[1]) then Failure(InvalidByte(s[1]))
    else
      var rest := Decode(s[2..]);
      if rest.Failure? then rest
      else Success([PairValue(s[0], s[1])] + rest.value)
  }

  /** Decoding accepts exactly the even-length strings of hex digits. */
  lemma {:induction false} DecodeSucceedsIff(s: string)
    ensures Decode(s).Success? <==> |s| % 2 == 0 && forall i :: 0 <= i < |s| ==> IsDigit(s[i])
    decreases |s|
  {
    if |s| >= 2 {
      DecodeSucceedsIff(s[2..]);
      if IsDigit(s[0]) && IsDigit(s[1]) {
        assert forall i :: 2 <= i < |s| ==> s[i] == s[2..][i - 2];
      }
    }
  }

  lemma NibbleRoundTrip(x: Byte)
    ensures DigitValue(Digit(x / 16)) == Some(x / 16)
    ensures DigitValue(Digit(x % 16)) == Some(x % 16)
    ensures PairValue(Digit(x / 16), Digit(x % 16)) == x
  {
  }

  /** Decoding the encoding gives the bytes back. */
  lemma {:induction false} DecodeEncode(b: seq<Byte>)
    ensures Decode(Encode(b)) == Success(b)
    decreases |b|
  {
    if b != [] {
      var s := Encode(b);
      NibbleRoundTrip(b[0]);
      assert s[0] == Digit(b[0] / 16) && s[1] == Digit(b[0] % 16);
      assert s[2..] == Encode(b[1..]);
      DecodeEncode(b[1..]);
      assert b == [b[0]] + b[1..];
    }
  }

  lemma DigitOfValue(c: char)
    requires IsLowerDigit(c)
    ensures DigitValue(c).Some? && Digit(DigitValue(c).value) == c
  {
  }

  lemma PairDigits(hi: char, lo: char)
    requires IsLowerDigit(hi) && IsLowerDigit(lo)
    ensures var b := PairValue(hi, lo); Digit(b / 16) == hi && Digit(b % 16) == lo
  {
    DigitOfValue(hi);
    DigitOfValue(lo);
    var h, l := DigitValue(hi).value, DigitValue(lo).value;
    assert (h * 16 + l) / 16 == h && (h * 16 + l) % 16 == l;
  }

  /** Encoding a decoded string gives it back when it was written in lowercase. */
  lemma {:induction false} EncodeDecode(s: string)
    requires forall i :: 0 <= i < |s| ==> IsLowerDigit(s[i])
    requires |s| % 2 == 0
    ensures Decode(s).Success? && Encode(Decode(s).value) == s
    decreases |s|
  {
    if s != [] {
      assert forall i :: 0 <= i < |s[2..]| ==> s[2..][i] == s[i + 2];
      EncodeDecode(s[2..]);
      PairDigits(s[0], s[1]);
      var b := Decode(s).value;
      assert b == [PairValue(s[0], s[1])] + Decode(s[2..]).value;
      assert Encode(b) == [Digit(b[0] / 16), Digit(b[0] % 16)] + Encode(b[1..]);
      assert b[1..] == Decode(s[2..]).value;
      assert s == [s[0], s[1]] + s[2..];
    }
  }

  /** Every character of an encoding is a lowercase digit. */
  lemma {:induction false} EncodeLowercase(b: seq<Byte>)
    ensures forall i :: 0 <= i < |Encode(b)| ==> IsLowerDigit(Encode(b)[i])
    decreases |b|
  {
    if b != [] {
      EncodeLowercase(b[1..]);
      var s := Encode(b);
      assert forall i :: 2 <= i < |s| ==> s[i] == Encode(b[1..])[i - 2];
    }
  }
}
