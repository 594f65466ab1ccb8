/** Modified UTF-8 (section 4.4.7 of the JVM Specification): deps/dex/Mutf8.java. */
module Mutf8 {
  import opened Words

  /** A UTF-16 code unit. */
  type Unit = x: int | 0 <= x < 0x1_0000

  // ---------------------------------------------------------------- encoding

  function Width(ch: Unit): nat {
    if ch != 0 && ch <= 127 then 1 else if ch <= 2047 then 2 else 3
  }

  /** Six bits to each byte after the first; U+0000 takes two bytes, so that no byte is zero. */
  function EncodedUnit(ch: Unit): (bytes: seq<Byte>)
    ensures |bytes| == Width(ch)
  {
    if ch != 0 && ch <= 127 then [ch]
    else if ch <= 2047 then [0xc0 + ch / 64 % 32, 0x80 + ch % 64]
    else [0xe0 + ch / 4096 % 16, 0x80 + ch / 64 % 64, 0x80 + ch % 64]
  }

  function Encoded(s: seq<Unit>): seq<Byte> {
    if s == [] then [] else EncodedUnit(s[0]) + Encoded(s[1..])
  }

  lemma {:induction false} EncodedLast(s: seq<Unit>, k: nat)
    requires k < |s|
    ensures Encoded(s[..k + 1]) == Encoded(s[..k]) + EncodedUnit(s[k])
  {
    if k == 0 {
      assert s[..1][1..] == [] && Encoded([]) == [];
      assert s[..0] == [] && s[..1][0] == s[0];
    } else {
      EncodedLast(s[1..], k - 1);
      assert s[..k + 1][1..] == s[1..][..k] && s[..k][1..] == s[1..][..k - 1];
      assert EncodedUnit(s[0]) + (Encoded(s[1..][..k - 1]) + EncodedUnit(s[k]))
          == (EncodedUnit(s[0]) + Encoded(s[1..][..k - 1])) + EncodedUnit(s[k]);
    }
  }

  lemma {:induction false} EncodedGrows(s: seq<Unit>, k: nat)
    requires k <= |s|
    ensures |Encoded(s[..k])| <= |Encoded(s)|
    decreases |s| - k
  {
    if k < |s| {
      EncodedLast(s, k);
      EncodedGrows(s, k + 1);
    } else {
      assert s[..k] == s;
    }
  }

  /** countBytes: refuses, when asked to, what takes more than 65535 bytes. */
  method CountBytes(s: seq<Unit>, shortLength: bool) returns (ok: bool, result: nat)
    ensures ok <==> !shortLength || |Encoded(s)| <= 65535
    ensures ok ==> result == |Encoded(s)|
  {
    result := 0;
    var i := 0;
    while i < |s|
      invariant 0 <= i <= |s| && result == |Encoded(s[..i])|
      invariant shortLength ==> result <= 65535
    {
      EncodedLast(s, i);
      var ch := s[i];
      if ch != 0 && ch <= 127 {
        result := result + 1;
      } else if ch <= 2047 {
        result := result + 2;
      } else {
        result := result + 3;
      }
      if shortLength && result > 65535 {
        EncodedGrows(s, i + 1);
        return false, result;
      }
      i := i + 1;
    }
    assert s[..i] == s;
    ok := true;
  }

  /** encode(dst, offset, s), into an array with room for it. */
  method EncodeInto(dst: array<Byte>, offset: nat, s: seq<Unit>)
    requires offset + |Encoded(s)| <= dst.Length
    modifies dst
    ensures dst[..] == old(dst[..offset]) + Encoded(s) + old(dst[offset + |Encoded(s)|..])
  {
    var at, i := offset, 0;
    while i < |s|
      invariant 0 <= i <= |s| && at == offset + |Encoded(s[..i])| <= dst.Length
      invariant dst[..at] == old(dst[..offset]) + Encoded(s[..i])
      invariant dst[at..] == old(dst[at..])
    {
      EncodedGrows(s, i + 1);
      EncodedLast(s, i);
      at := PutUnit(dst, at, s[i]);
      i := i + 1;
    }
    assert s[..i] == s;
    assert dst[..] == dst[..at] + dst[at..];
  }

  method PutUnit(dst: array<Byte>, at: nat, ch: Unit) returns (next: nat)
    requires at + Width(ch) <= dst.Length
    modifies dst
    ensures next == at + Width(ch)
    ensures dst[..next] == old(dst[..at]) + EncodedUnit(ch)
    ensures dst[next..] == old(dst[next..])
  {
    if ch != 0 && ch <= 127 {
      dst[at] := ch;
      next := at + 1;
    } else if ch <= 2047 {
      dst[at] := 0xc0 + ch / 64 % 32;
      dst[at + 1] := 0x80 + ch % 64;
      next := at + 2;
    } else {
      dst[at] := 0xe0 + ch / 4096 % 16;
      dst[at + 1] := 0x80 + ch / 64 % 64;
      dst[at + 2] := 0x80 + ch % 64;
      next := at + 3;
    }
  }

  /** encode(s): an array of exactly the counted length. */
  method Encode(s: seq<Unit>) returns (ok: bool, bytes: seq<Byte>)
    ensures ok <==> |Encoded(s)| <= 65535
    ensures ok ==> bytes == Encoded(s)
  {
    var count;
    ok, count := CountBytes(s, true);
    bytes := [];
    if ok {
      var result := new Byte[count];
      EncodeInto(result, 0, s);
      bytes := result[..];
      assert bytes == [] + Encoded(s) + [];
    }
  }

  // ---------------------------------------------------------------- decoding

  datatype Decoded =
    | Text(units: seq<Unit>, used: nat)
    | BadSecondByte
    | BadSecondOrThirdByte
    | BadByte
    | EndOfInput
    | OutOfRoom

  predicate Continues(b: Byte) {
    0x80 <= b < 0xc0
  }

  /** ((a & 0x1F) << 6) | (b & 0x3F): the marks taken off, the rest put together. */
  function FromTwo(a: int, b: int): Unit
    requires 0xc0 <= a < 0xe0 && 0x80 <= b < 0xc0
  {
    64 * (a - 0xc0) + (b - 0x80)
  }

  /** ((a & 0x0F) << 12) | ((b & 0x3F) << 6) | (c & 0x3F) */
  function FromThree(a: int, b: int, c: int): Unit
    requires 0xe0 <= a < 0xf0 && 0x80 <= b < 0xc0 && 0x80 <= c < 0xc0
  {
    4096 * (a - 0xe0) + 64 * (b - 0x80) + (c - 0x80)
  }

  datatype Step = Got(unit: Unit, size: nat) | Stop(why: Decoded)

  /** One unit from the front of the input, whose first byte is not zero. */
  function DecodeUnit(input: seq<Byte>): Step
    requires |input| > 0 && input[0] != 0
  {
    var a := input[0];
    if a < 0x80 then Got(a, 1)
    else if 0xc0 <= a < 0xe0 then
      if |input| < 2 then Stop(EndOfInput)
      else if !Continues(input[1]) then Stop(BadSecondByte)
      else Got(FromTwo(a, input[1]), 2)
    else if 0xe0 <= a < 0xf0 then
      if |input| < 3 then Stop(EndOfInput)
      else if !Continues(input[1]) || !Continues(input[2]) then Stop(BadSecondOrThirdByte)
      else Got(FromThree(a, input[1], input[2]), 3)
    else Stop(BadByte)
  }

  /** decode into an array with this much room, up to the first zero byte. */
  function Decoding(input: seq<Byte>, room: nat): Decoded {
    if input == [] then EndOfInput
    else if input[0] == 0 then Text([], 1)
    else if room == 0 then OutOfRoom
    else
      match DecodeUnit(input)
      case Stop(why) => why
      case Got(unit, size) =>
        var rest := Decoding(input[size..], room - 1);
        if rest.Text? then Text([unit] + rest.units, size + rest.used) else rest
  }

  method Decode(input: seq<Byte>, out: array<Unit>) returns (r: Decoded)
    modifies out
    ensures r == Decoding(input, out.Length)
    ensures r.Text? ==> |r.units| <= out.Length && out[..|r.units|] == r.units
  {
    var s, at := 0, 0;
    while true
      invariant 0 <= s <= out.Length && 0 <= at <= |input|
      invariant SoFar(input, out.Length, out[..s], at)
      decreases |input| - at
    {
      if at == |input| {
        return EndOfInput;
      }
      if input[at] == 0 {
        return Text(out[..s], at + 1);
      }
      if s == out.Length {
        return OutOfRoom;
      }
      ghost var units := out[..s];
      out[s] := input[at];
      var step := DecodeUnit(input[at..]);
      match step
      case Stop(why) =>
        return why;
      case Got(unit, size) =>
        OneMore(input, out.Length, units, at, unit, size);
        out[s] := unit;
        s, at := s + 1, at + size;
        assert out[..s] == units + [unit];
    }
  }

  /** These units have been decoded, and what remains of the input will be put behind them. */
  ghost predicate SoFar(input: seq<Byte>, room: nat, units: seq<Unit>, at: nat) {
    && |units| <= room && at <= |input|
    && Decoding(input, room) == Prefixed(units, at, Decoding(input[at..], room - |units|))
  }

  lemma OneMore(input: seq<Byte>, room: nat, units: seq<Unit>, at: nat, unit: Unit, size: nat)
    requires SoFar(input, room, units, at) && at < |input| && input[at] != 0 && |units| < room
    requires DecodeUnit(input[at..]) == Got(unit, size)
    ensures SoFar(input, room, units + [unit], at + size)
  {
    var left := room - |units|;
    OneUnit(input[at..], left, unit, size);
    assert input[at..][size..] == input[at + size..];
    PrefixedTwice(units, at, unit, size, Decoding(input[at + size..], left - 1));
  }

  /** The outcome for the rest of the input, with what came before put in front. */
  function Prefixed(units: seq<Unit>, used: nat, rest: Decoded): Decoded {
    if rest.Text? then Text(units + rest.units, used + rest.used) else rest
  }

  lemma OneUnit(input: seq<Byte>, room: nat, unit: Unit, size: nat)
    requires input != [] && input[0] != 0 && room > 0 && DecodeUnit(input) == Got(unit, size)
    ensures size <= |input| && Decoding(input, room) == Prefixed([unit], size, Decoding(input[size..], room - 1))
  {
  }

  lemma PrefixedTwice(units: seq<Unit>, used: nat, unit: Unit, size: nat, rest: Decoded)
    ensures Prefixed(units, used, Prefixed([unit], size, rest)) == Prefixed(units + [unit], used + size, rest)
  {
    if rest.Text? {
      assert units + ([unit] + rest.units) == (units + [unit]) + rest.units;
    }
  }

  // ---------------------------------------------------------------- round trip

  lemma UnitReadsBack(ch: Unit, rest: seq<Byte>)
    ensures var input := EncodedUnit(ch) + rest;
            input[0] != 0 && DecodeUnit(input) == Got(ch, Width(ch)) && input[Width(ch)..] == rest
  {
    if Width(ch) == 2 {
      TwoReadBack(ch);
    } else if Width(ch) == 3 {
      ThreeReadBack(ch);
    }
  }

  lemma FirstUnit(ch: Unit, tail: seq<Byte>, room: nat)
    ensures Decoding(EncodedUnit(ch) + tail, room) ==
            if room == 0 then OutOfRoom else Prefixed([ch], Width(ch), Decoding(tail, room - 1))
  {
    UnitReadsBack(ch, tail);
    if room > 0 {
      OneUnit(EncodedUnit(ch) + tail, room, ch, Width(ch));
    }
  }

  lemma TwoReadBack(ch: int)
    requires 0 <= ch < 2048
    ensures FromTwo(0xc0 + ch / 64 % 32, 0x80 + ch % 64) == ch
  {
  }

  lemma ThreeReadBack(ch: int)
    requires 0 <= ch < 0x1_0000
    ensures FromThree(0xe0 + ch / 4096 % 16, 0x80 + ch / 64 % 64, 0x80 + ch % 64) == ch
  {
    assert ch / 64 == ch / 4096 * 64 + ch / 64 % 64;
  }

  /** Every string reads back from its bytes and a terminator, whatever follows, given room for
      exactly its length; with less room the decoder stops before writing past the end. */
  lemma {:induction false} DecodingUndoesEncoding(s: seq<Unit>, rest: seq<Byte>, room: nat)
    ensures Decoding(Encoded(s) + ([0] + rest), room) == if |s| <= room then Text(s, |Encoded(s)| + 1) else OutOfRoom
  {
    if s == [] {
      assert Encoded(s) + ([0] + rest) == [0] + rest;
    } else {
      var tail := Encoded(s[1..]) + ([0] + rest);
      assert Encoded(s) + ([0] + rest) == EncodedUnit(s[0]) + tail;
      FirstUnit(s[0], tail, room);
      if room > 0 {
        DecodingUndoesEncoding(s[1..], rest, room - 1);
        assert [s[0]] + s[1..] == s;
      }
    }
  }

  lemma {:induction false} NoZeroByte(s: seq<Unit>)
    ensures 0 !in Encoded(s)
  {
    if s != [] {
      NoZeroByte(s[1..]);
    }
  }

  // ---------------------------------------------------------------- the format

  /** The number in base 64, first digit first. */
  function Base64(digits: seq<int>): int {
    if digits == [] then 0 else 64 * Base64(digits[..|digits| - 1]) + digits[|digits| - 1]
  }

  lemma TwoDigits(a: int, b: int)
    ensures Base64([a, b]) == 64 * a + b
  {
    var digits := [a, b];
    assert digits[..1] == [a] && [a][..0] == [];
    assert Base64(digits) == 64 * Base64(digits[..1]) + digits[1];
  }

  lemma ThreeDigits(a: int, b: int, c: int)
    ensures Base64([a, b, c]) == 4096 * a + 64 * b + c
  {
    var digits := [a, b, c];
    assert digits[..2] == [a, b];
    TwoDigits(a, b);
    assert Base64(digits) == 64 * Base64(digits[..2]) + digits[2];
  }

  /** One byte 0xxxxxxx, two bytes 110xxxxx 10xxxxxx, or three bytes 1110xxxx 10xxxxxx 10xxxxxx, for
      the unit made of the x bits. */
  predicate Spells(bytes: seq<Byte>, ch: Unit) {
    || (|bytes| == 1 && bytes[0] / 128 == 0 && ch == bytes[0])
    || (|bytes| == 2 && bytes[0] / 32 == 6 && bytes[1] / 64 == 2 && ch == Base64([bytes[0] % 32, bytes[1] % 64]))
    || (|bytes| == 3 && bytes[0] / 16 == 14 && bytes[1] / 64 == 2 && bytes[2] / 64 == 2
        && ch == Base64([bytes[0] % 16, bytes[1] % 64, bytes[2] % 64]))
  }

  /** Each unit is spelt in the shortest of the three forms that has room for it, but for U+0000,
      which takes two bytes. */
  lemma UnitIsSpelt(ch: Unit)
    ensures Spells(EncodedUnit(ch), ch)
    ensures |EncodedUnit(ch)| == 1 <==> 0x01 <= ch <= 0x7f
    ensures |EncodedUnit(ch)| == 2 <==> ch == 0 || 0x80 <= ch <= 0x7ff
    ensures |EncodedUnit(ch)| == 3 <==> 0x800 <= ch
  {
    if Width(ch) == 2 {
      SpellsTwo(ch);
    } else if Width(ch) == 3 {
      SpellsThree(ch);
    }
  }

  lemma SpellsTwo(ch: Unit)
    requires ch < 0x800
    ensures Spells([0xc0 + ch / 64 % 32, 0x80 + ch % 64], ch)
  {
    assert ch / 64 < 32;
    TwoDigits(ch / 64 % 32, ch % 64);
  }

  lemma SpellsThree(ch: Unit)
    ensures Spells([0xe0 + ch / 4096 % 16, 0x80 + ch / 64 % 64, 0x80 + ch % 64], ch)
  {
    ThreeDigits(ch / 4096 % 16, ch / 64 % 64, ch % 64);
    assert ch / 4096 < 16;
    assert ch / 64 == ch / 4096 * 64 + ch / 64 % 64;
  }

  /** The decoder takes any of the three forms, the shortest or not, and otherwise says what is
      wrong: a first byte 10xxxxxx or 1111xxxx, the end of the input, or a later byte that is not
      10xxxxxx. */
  lemma DecodesWhatIsSpelt(input: seq<Byte>)
    requires |input| > 0 && input[0] != 0
    ensures forall ch: Unit, n: nat ::
              DecodeUnit(input) == Got(ch, n) <==> 0 < n <= |input| && Spells(input[..n], ch)
    ensures DecodeUnit(input) == Stop(BadByte) <==> input[0] / 64 == 2 || input[0] / 16 == 15
    ensures DecodeUnit(input) == Stop(EndOfInput) <==>
              (input[0] / 32 == 6 && |input| < 2) || (input[0] / 16 == 14 && |input| < 3)
    ensures DecodeUnit(input) == Stop(BadSecondByte) <==>
              input[0] / 32 == 6 && |input| >= 2 && input[1] / 64 != 2
    ensures DecodeUnit(input) == Stop(BadSecondOrThirdByte) <==>
              input[0] / 16 == 14 && |input| >= 3 && (input[1] / 64 != 2 || input[2] / 64 != 2)
  {
    if |input| >= 2 {
      TwoDigits(input[0] % 32, input[1] % 64);
    }
    if |input| >= 3 {
      ThreeDigits(input[0] % 16, input[1] % 64, input[2] % 64);
    }
    forall ch: Unit, n: nat
      ensures DecodeUnit(input) == Got(ch, n) <==> 0 < n <= |input| && Spells(input[..n], ch)
    {
    }
  }
}
