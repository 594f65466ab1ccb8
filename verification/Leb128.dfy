/** LEB128 integers (section 7.6 of DWARF v3): deps/dex/Leb128.java. */
module Leb128 {
  import opened Wrappers
  import opened Words
  import opened Bits

  // ---------------------------------------------------------------- what a sequence of bytes stands for

  /** Seven bits a byte, least significant first; the high bit says that more follows. */
  predicate More(b: Byte) {
    b >= 0x80
  }

  /** All bytes but the last have the high bit set. */
  ghost predicate OneNumber(bytes: seq<Byte>) {
    && |bytes| > 0 && !More(bytes[|bytes| - 1])
    && forall k :: 0 <= k < |bytes| - 1 ==> More(bytes[k])
  }

  function Unsigned(bytes: seq<Byte>): nat {
    if bytes == [] then 0 else bytes[0] % 128 + 128 * Unsigned(bytes[1..])
  }

  /** The last byte's second highest bit is the sign. */
  function Signed(bytes: seq<Byte>): int {
    if bytes == [] then 0
    else if |bytes| == 1 then (if bytes[0] % 128 < 64 then bytes[0] % 128 else bytes[0] % 128 - 128)
    else bytes[0] % 128 + 128 * Signed(bytes[1..])
  }

  // ---------------------------------------------------------------- writing

  /** writeUnsignedLeb128; `value` is the 32-bit pattern of the int, which >>> shifts in zeros. */
  function Unsigned128(value: nat): seq<Byte> {
    if value / 128 == 0 then [value % 128] else [value % 128 + 128] + Unsigned128(value / 128)
  }

  /** writeSignedLeb128: stop when what remains is all sign, and the sign is the bit before it. */
  predicate Stops(value: int) {
    value / 128 == (if value >= 0 then 0 else -1) && (value / 128) % 2 == (value / 64) % 2
  }

  function Signed128(value: int): seq<Byte>
    decreases if value >= 0 then value else -value
  {
    StopsWhenSmall(value);
    if Stops(value) then [value % 128] else [value % 128 + 128] + Signed128(value / 128)
  }

  lemma StopsWhenSmall(value: int)
    ensures Stops(value) <==> -64 <= value < 64
  {
  }

  method WriteUnsigned(value: Int32) returns (out: seq<Byte>)
    ensures out == Unsigned128(value % TWO_32)
  {
    out := [];
    var v: nat := value % TWO_32;
    var remaining := v / 128;
    while remaining != 0
      invariant remaining == v / 128
      invariant out + Unsigned128(v) == Unsigned128(value % TWO_32)
      decreases remaining
    {
      Associates(out, [v % 128 + 128], Unsigned128(v / 128));
      out := out + [v % 128 + 128];
      v := remaining;
      remaining := remaining / 128;
    }
    out := out + [v % 128];
  }

  method WriteSigned(value: Int32) returns (out: seq<Byte>)
    ensures out == Signed128(value)
  {
    out := [];
    var v: int := value;
    var remaining, hasMore := v / 128, true;
    var end := if value >= 0 then 0 else -1;
    while hasMore
      invariant remaining == v / 128 && end == (if v >= 0 then 0 else -1)
      invariant if hasMore then out + Signed128(v) == Signed128(value) else out == Signed128(value)
      decreases hasMore, if v >= 0 then v else -v
    {
      StopsWhenSmall(v);
      Associates(out, [v % 128 + 128], Signed128(v / 128));
      hasMore := remaining != end || remaining % 2 != (v / 64) % 2;
      out := out + [v % 128 + if hasMore then 0x80 else 0];
      v := remaining;
      remaining := remaining / 128;
    }
  }

  /** signedLeb128Size is the number of bytes written. */
  method SignedSize(value: Int32) returns (count: nat)
    ensures count == |Signed128(value)|
  {
    count := 0;
    var v: int := value;
    var remaining, hasMore := v / 128, true;
    var end := if value >= 0 then 0 else -1;
    while hasMore
      invariant remaining == v / 128 && end == (if v >= 0 then 0 else -1)
      invariant if hasMore then count + |Signed128(v)| == |Signed128(value)| else count == |Signed128(value)|
      decreases hasMore, if v >= 0 then v else -v
    {
      StopsWhenSmall(v);
      hasMore := remaining != end || remaining % 2 != (v / 64) % 2;
      v := remaining;
      remaining := remaining / 128;
      count := count + 1;
    }
  }

  /** unsignedLeb128Size shifts the sign bit in, so it only ends for a nonnegative int. */
  method UnsignedSize(value: Int32) returns (count: nat)
    requires value >= 0
    ensures count == |Unsigned128(value % TWO_32)|
  {
    var v: nat := value;
    var remaining := v / 128;
    count := 0;
    while remaining != 0
      invariant remaining == v / 128 && count + |Unsigned128(v)| == |Unsigned128(value % TWO_32)|
      decreases remaining
    {
      v := remaining;
      remaining := remaining / 128;
      count := count + 1;
    }
    count := count + 1;
  }

  /** The value of `remaining` in unsignedLeb128Size after n rounds. */
  function Shifted(value: int, n: nat): int
    decreases n
  {
    if n == 0 then value / 128 else Shifted(value, n - 1) / 128
  }

  /** It gets to zero, and the loop ends, exactly for the nonnegative values. */
  lemma UnsignedSizeEndsIff(value: Int32)
    ensures (exists n: nat :: Shifted(value, n) == 0) <==> value >= 0
  {
    if value < 0 {
      forall n: nat ensures Shifted(value, n) < 0 {
        StaysNegative(value, n);
      }
    } else {
      assert Shifted(value, 4) == Shifted(value, 3) / 128 && Shifted(value, 3) == Shifted(value, 2) / 128;
      assert Shifted(value, 2) == Shifted(value, 1) / 128 && Shifted(value, 1) == Shifted(value, 0) / 128;
      assert Shifted(value, 4) == 0;
    }
  }

  lemma {:induction false} StaysNegative(value: int, n: nat)
    requires value < 0
    ensures Shifted(value, n) < 0
    decreases n
  {
    if n > 0 {
      StaysNegative(value, n - 1);
    }
  }

  // ---------------------------------------------------------------- written numbers

  function Pow128(n: nat): (p: nat)
    ensures p > 0
  {
    if n == 0 then 1 else 128 * Pow128(n - 1)
  }

  lemma {:induction false} UnsignedWritten(value: nat, n: nat)
    requires value < Pow128(n) && n > 0
    ensures var bytes := Unsigned128(value); OneNumber(bytes) && |bytes| <= n && Unsigned(bytes) == value
    decreases n
  {
    var bytes := Unsigned128(value);
    if value / 128 != 0 {
      assert n > 1;
      UnsignedWritten(value / 128, n - 1);
      assert bytes[1..] == Unsigned128(value / 128);
    } else {
      assert bytes[1..] == [];
    }
  }

  lemma {:induction false} SignedWritten(value: int, n: nat)
    requires n > 0 && -64 * Pow128(n - 1) <= value < 64 * Pow128(n - 1)
    ensures var bytes := Signed128(value); OneNumber(bytes) && |bytes| <= n && Signed(bytes) == value
    decreases n
  {
    var bytes := Signed128(value);
    StopsWhenSmall(value);
    if !Stops(value) {
      assert n > 1;
      var p := Pow128(n - 2);
      assert Pow128(n - 1) == 128 * p;
      assert -64 * p <= value / 128 < 64 * p;
      SignedWritten(value / 128, n - 1);
      assert bytes[1..] == Signed128(value / 128);
    }
  }

  // ---------------------------------------------------------------- reading

  datatype Read = Value(value: Int32, used: nat) | Invalid | EndOfInput

  /** The number of bytes up to the first one without the high bit, that one included. */
  function Length(input: seq<Byte>): (n: nat)
    ensures n <= |input|
    ensures forall k :: 0 <= k < n - 1 ==> More(input[k])
    ensures n == |input| || (n > 0 && !More(input[n - 1]))
  {
    if input == [] then 0 else if !More(input[0]) then 1 else 1 + Length(input[1..])
  }

  predicate Ends(input: seq<Byte>) {
    0 < Length(input) <= 5 && !More(input[Length(input) - 1])
  }

  /** What a reader should return: the number at the front of the input, as 32 bits hold it. A
      number longer than five bytes is refused. */
  function Reading(input: seq<Byte>, signed: bool): Read {
    var n := Length(input);
    if Ends(input) then Value(Wrap32(if signed then Signed(input[..n]) else Unsigned(input[..n])), n)
    else if |input| >= 5 then Invalid
    else EndOfInput
  }

  /** The pattern after the first n bytes. */
  function Pattern(bytes: seq<Byte>): nat {
    Unsigned(bytes) % TWO_32
  }

  lemma {:induction false} UnsignedLast(bytes: seq<Byte>, b: Byte)
    ensures Unsigned(bytes + [b]) == Unsigned(bytes) + Pow128(|bytes|) * (b % 128)
    ensures Unsigned(bytes) < Pow128(|bytes|)
  {
    if bytes == [] {
      assert [b][1..] == [] && bytes + [b] == [b];
    } else {
      var rest, p := bytes[1..], Pow128(|bytes| - 1);
      UnsignedLast(rest, b);
      assert (bytes + [b])[0] == bytes[0] && (bytes + [b])[1..] == rest + [b];
      assert 128 * (p * (b % 128)) == (128 * p) * (b % 128);
    }
  }

  /** One round: the next seven bits are put in place, and what does not fit is lost. */
  lemma PutInPlace(bytes: seq<Byte>, b: Byte)
    requires |bytes| < 5
    ensures Or(Pattern(bytes), ShiftLeft(b % 128, 7 * |bytes|) % TWO_32) == Pattern(bytes + [b])
  {
    UnsignedLast(bytes, b);
    if |bytes| < 4 {
      PutLow(Unsigned(bytes), b % 128, |bytes|, Unsigned(bytes + [b]));
    } else {
      PutTop(Unsigned(bytes), b % 128, Unsigned(bytes + [b]));
    }
  }

  lemma PutLow(u: nat, c: nat, n: nat, v: nat)
    requires n < 4 && u < Pow128(n) && c < 128 && v == u + Pow128(n) * c
    ensures Or(u % TWO_32, ShiftLeft(c, 7 * n) % TWO_32) == v % TWO_32
  {
    Constants(c, n);
    Fits(u, Pow128(n), c);
    OrDisjoint(u, c, 7 * n);
  }

  lemma PutTop(u: nat, c: nat, v: nat)
    requires u < Pow128(4) && c < 128 && v == u + Pow128(4) * c
    ensures Or(u % TWO_32, ShiftLeft(c, 7 * 4) % TWO_32) == v % TWO_32
  {
    var n := 4;
    Constants(c, n);
    Constants(c % 16, n);
    Truncates(u, c);
    OrDisjoint(u, c % 16, 7 * n);
  }

  lemma Fits(u: nat, p: nat, c: nat)
    requires u < p <= 2097152 && c < 128
    ensures u < TWO_32 && 0 <= p * c < TWO_32 && u + p * c < TWO_32
    ensures u % TWO_32 == u && (p * c) % TWO_32 == p * c && (u + p * c) % TWO_32 == u + p * c
  {
    assert p * c <= 127 * p by {
      assert p * (127 - c) >= 0;
    }
  }

  lemma Truncates(u: nat, c: nat)
    requires u < 268435456 && c < 128
    ensures u % TWO_32 == u
    ensures (268435456 * c) % TWO_32 == 268435456 * (c % 16)
    ensures (u + 268435456 * c) % TWO_32 == u + 268435456 * (c % 16)
  {
    var q, r := c / 16, c % 16;
    Remainder(268435456 * c, TWO_32, q, 268435456 * r);
    Remainder(u + 268435456 * c, TWO_32, q, u + 268435456 * r);
  }

  /** Shifts by 0, 7, 14, 21 and 28, as multiplications. */
  lemma Constants(c: nat, n: nat)
    requires n < 5
    ensures Pow128(n) == Pow2(7 * n) == [1, 128, 16384, 2097152, 268435456][n]
    ensures ShiftLeft(c, 7 * n) == Pow128(n) * c
  {
    Shift7(c, 0);
    Shift7(c, 7);
    Shift7(c, 14);
    Shift7(c, 21);
    assert Pow128(1) == 128 * Pow128(0) && Pow128(2) == 128 * Pow128(1);
    assert Pow128(3) == 128 * Pow128(2) && Pow128(4) == 128 * Pow128(3);
  }

  lemma Shift7(c: nat, n: nat)
    ensures ShiftLeft(c, n + 7) == 128 * ShiftLeft(c, n) && Pow2(n + 7) == 128 * Pow2(n)
  {
    assert ShiftLeft(c, n + 7) == 2 * ShiftLeft(c, n + 6) && ShiftLeft(c, n + 6) == 2 * ShiftLeft(c, n + 5);
    assert ShiftLeft(c, n + 5) == 2 * ShiftLeft(c, n + 4) && ShiftLeft(c, n + 4) == 2 * ShiftLeft(c, n + 3);
    assert ShiftLeft(c, n + 3) == 2 * ShiftLeft(c, n + 2) && ShiftLeft(c, n + 2) == 2 * ShiftLeft(c, n + 1);
    assert Pow2(n + 7) == 2 * Pow2(n + 6) && Pow2(n + 6) == 2 * Pow2(n + 5) && Pow2(n + 5) == 2 * Pow2(n + 4);
    assert Pow2(n + 4) == 2 * Pow2(n + 3) && Pow2(n + 3) == 2 * Pow2(n + 2) && Pow2(n + 2) == 2 * Pow2(n + 1);
  }

  /** The bytes of one number, or of more than five bytes of one. */
  ghost predicate AllMore(input: seq<Byte>, n: nat)
    requires n <= |input|
  {
    forall k :: 0 <= k < n ==> More(input[k])
  }

  lemma LengthIs(input: seq<Byte>, n: nat)
    requires 0 < n <= |input| && AllMore(input, n - 1) && !More(input[n - 1])
    ensures Length(input) == n
  {
  }

  lemma NoEnd(input: seq<Byte>, n: nat)
    requires n <= |input| && AllMore(input, n) && (n == 5 || n == |input|)
    ensures !Ends(input)
  {
  }

  /** What a read comes to: the number at the front, if it ends within five bytes; an error if five
      bytes go by without an end; and the end of the input if that comes first. */
  lemma ReadingIs(input: seq<Byte>, signed: bool)
    ensures forall value: Int32, n: nat ::
              Reading(input, signed) == Value(value, n) <==>
              n <= 5 && n <= |input| && OneNumber(input[..n])
              && value == Wrap32(if signed then Signed(input[..n]) else Unsigned(input[..n]))
    ensures Reading(input, signed) == Invalid <==> |input| >= 5 && AllMore(input, 5)
    ensures Reading(input, signed) == EndOfInput <==> |input| < 5 && AllMore(input, |input|)
  {
    forall n: nat | n <= |input| && OneNumber(input[..n])
      ensures Length(input) == n
    {
      assert forall k :: 0 <= k < n - 1 ==> More(input[..n][k]);
      LengthIs(input, n);
    }
    if Ends(input) {
      assert OneNumber(input[..Length(input)]);
    }
  }

  /** readUnsignedLeb128 */
  method ReadUnsigned(input: seq<Byte>) returns (r: Read)
    ensures r == Reading(input, false)
  {
    var result: nat, count, more := 0, 0, true;
    assert input[..0] == [];
    while more && count < 5
      invariant 0 <= count <= |input| && count <= 5
      invariant result == Pattern(input[..count])
      invariant if more then AllMore(input, count) else count > 0 && AllMore(input, count - 1) && !More(input[count - 1])
      decreases more, 5 - count
    {
      if count == |input| {
        NoEnd(input, count);
        return EndOfInput;
      }
      var cur := input[count];
      PutInPlace(input[..count], cur);
      assert input[..count + 1] == input[..count] + [cur];
      result := Or(result, ShiftLeft(cur % 128, 7 * count) % TWO_32);
      count := count + 1;
      more := More(cur);
    }
    if more {
      NoEnd(input, count);
      return Invalid;
    }
    LengthIs(input, count);
    SameWrap(Unsigned(input[..count]));
    r := Value(Wrap32(result), count);
  }

  lemma SameWrap(x: int)
    ensures Wrap32(x % TWO_32) == Wrap32(x)
  {
    assert (x % TWO_32) % TWO_32 == x % TWO_32;
  }

  /** The sign, put back: 128^n less when the last byte has its sign bit. */
  lemma {:induction false} SignedIs(bytes: seq<Byte>)
    requires bytes != []
    ensures var n := |bytes|;
            Signed(bytes) == Unsigned(bytes) - if bytes[n - 1] % 128 < 64 then 0 else Pow128(n)
    ensures Unsigned(bytes) < Pow128(|bytes|)
    ensures bytes[|bytes| - 1] % 128 < 64 <==> 2 * Unsigned(bytes) < Pow128(|bytes|)
  {
    var rest := bytes[1..];
    if rest == [] {
      assert Unsigned(rest) == 0 && Pow128(1) == 128 * Pow128(0);
    } else {
      SignedIs(rest);
      assert rest[|rest| - 1] == bytes[|bytes| - 1];
    }
  }

  /** signBits after n rounds: ones from bit 7n up, nothing once they are all shifted out. */
  function SignBits(n: nat): nat
    requires n <= 5
  {
    [0xffff_ffff, 0xffff_ff80, 0xffff_c000, 0xffe0_0000, 0xf000_0000, 0][n]
  }

  lemma SignBitsStep(n: nat)
    requires n < 5
    ensures (SignBits(n) * 128) % TWO_32 == SignBits(n + 1)
  {
  }

  lemma SignBitsAre(n: nat)
    requires 1 <= n <= 4
    ensures SignBits(n) == ShiftLeft(Pow2(32 - 7 * n) - 1, 7 * n) == TWO_32 - Pow128(n)
    ensures Pow2(7 * n) == Pow128(n)
  {
    PowersOf2();
    Constants(Pow2(32 - 7 * n) - 1, n);
  }

  lemma SignTestAre(n: nat)
    requires 1 <= n <= 4
    ensures SignBits(n) / 2 + 0x8000_0000 == ShiftLeft(Pow2(33 - 7 * n) - 1, 7 * n - 1)
    ensures Pow128(n) == 2 * Pow2(7 * n - 1)
  {
    PowersOf2();
    var m := Pow2(33 - 7 * n) - 1;
    assert ShiftLeft(m, 7 * n) == 2 * ShiftLeft(m, 7 * n - 1) && Pow2(7 * n) == 2 * Pow2(7 * n - 1);
    Constants(m, n);
  }

  lemma PowersOf2()
    ensures Pow2(4) == 16 && Pow2(5) == 32 && Pow2(11) == 2048 && Pow2(12) == 4096 && Pow2(18) == 0x4_0000
    ensures Pow2(19) == 0x8_0000 && Pow2(25) == 0x200_0000 && Pow2(26) == 0x400_0000 && Pow2(32) == TWO_32
  {
    assert Pow2(4) == 2 * Pow2(3) && Pow2(3) == 2 * Pow2(2) && Pow2(2) == 2 * Pow2(1);
    Shift7(0, 4);
    Shift7(0, 5);
    Shift7(0, 11);
    Shift7(0, 12);
    Shift7(0, 18);
    Shift7(0, 19);
    Shift7(0, 25);
  }

  /** Up to four bytes: the test finds the sign bit, and the sign bits add up with the rest. */
  lemma ShortSign(u: nat, n: nat)
    requires 1 <= n <= 4 && u < Pow128(n)
    ensures And(SignBits(n) / 2 + 0x8000_0000, u) != 0 <==> 2 * u >= Pow128(n)
    ensures Or(u, SignBits(n)) == u + TWO_32 - Pow128(n)
    ensures u < TWO_32 && SignBits(n) > 0
  {
    PowersOf2();
    SignBitsAre(n);
    SignTestAre(n);
    var k := 7 * n - 1;
    assert u < Pow2(32) && k + (33 - 7 * n) == 32;
    HighBitsTest(u, k, 33 - 7 * n);
    OrDisjoint(u, Pow2(32 - 7 * n) - 1, 7 * n);
  }

  lemma WrapsDown(u: nat, p: nat)
    requires u < p <= 2 * u && p <= TWO_32 / 2
    ensures Wrap32(u + TWO_32 - p) == Wrap32(u - p)
  {
  }

  /** (signBits >> 1) & result tests the sign bit, and result | signBits extends it. */
  function Extended(r: nat, signBits: nat): nat {
    if And(if signBits == 0 then 0 else signBits / 2 + 0x8000_0000, r) != 0 then Or(r, signBits) else r
  }

  lemma ShortExtends(u: nat, n: nat, signed: int)
    requires 1 <= n <= 4 && u < Pow128(n)
    requires signed == u - if 2 * u < Pow128(n) then 0 else Pow128(n)
    ensures Wrap32(Extended(u % TWO_32, SignBits(n))) == Wrap32(signed)
  {
    var p := Pow128(n);
    ExtendedIs(u, n, p);
    if 2 * u >= p {
      WrapsDown(u, p);
    }
  }

  lemma ExtendedIs(u: nat, n: nat, p: nat)
    requires 1 <= n <= 4 && u < p == Pow128(n)
    ensures Extended(u % TWO_32, SignBits(n)) == if 2 * u >= p then u + TWO_32 - p else u
    ensures p <= TWO_32 / 2
  {
    ShortSign(u, n);
    Constants(0, n);
    Small(u);
  }

  lemma Small(u: nat)
    requires u < TWO_32
    ensures u % TWO_32 == u
  {
  }

  lemma ExtendsSign(bytes: seq<Byte>)
    requires 1 <= |bytes| <= 5
    ensures Wrap32(Extended(Pattern(bytes), SignBits(|bytes|))) == Wrap32(Signed(bytes))
  {
    SignedIs(bytes);
    if |bytes| == 5 {
      FiveBytes(bytes);
      assert And(0, Pattern(bytes)) == 0;
    } else {
      ShortExtends(Unsigned(bytes), |bytes|, Signed(bytes));
    }
  }

  lemma FiveBytes(bytes: seq<Byte>)
    requires |bytes| == 5
    ensures Wrap32(Pattern(bytes)) == Wrap32(Signed(bytes))
  {
    SignedIs(bytes);
    SameWrap(Unsigned(bytes));
    Constants(0, 4);
    assert Pow128(5) == 128 * Pow128(4) == 8 * TWO_32;
  }

  /** readSignedLeb128 */
  method ReadSigned(input: seq<Byte>) returns (r: Read)
    ensures r == Reading(input, true)
  {
    var result: nat, signBits: nat, count, more := 0, 0xffff_ffff, 0, true;
    assert input[..0] == [];
    while more && count < 5
      invariant 0 <= count <= |input| && count <= 5
      invariant result == Pattern(input[..count]) && signBits == SignBits(count)
      invariant if more then AllMore(input, count) else count > 0 && AllMore(input, count - 1) && !More(input[count - 1])
      decreases more, 5 - count
    {
      if count == |input| {
        NoEnd(input, count);
        return EndOfInput;
      }
      var cur := input[count];
      PutInPlace(input[..count], cur);
      assert input[..count + 1] == input[..count] + [cur];
      result := Or(result, ShiftLeft(cur % 128, 7 * count) % TWO_32);
      SignBitsStep(count);
      signBits := (signBits * 128) % TWO_32;
      count := count + 1;
      more := More(cur);
    }
    if more {
      NoEnd(input, count);
      return Invalid;
    }
    LengthIs(input, count);
    ExtendsSign(input[..count]);
    r := Value(Wrap32(Extended(result, signBits)), count);
  }

  // ---------------------------------------------------------------- round trips

  lemma Written(bytes: seq<Byte>, rest: seq<Byte>)
    requires OneNumber(bytes) && |bytes| <= 5
    ensures Length(bytes + rest) == |bytes| && Ends(bytes + rest) && (bytes + rest)[..|bytes|] == bytes
  {
    LengthIs(bytes + rest, |bytes|);
  }

  lemma UnsignedReadsBack(value: Int32, rest: seq<Byte>)
    ensures Reading(Unsigned128(value % TWO_32) + rest, false) == Value(value, |Unsigned128(value % TWO_32)|)
  {
    FivePlaces();
    UnsignedWritten(value % TWO_32, 5);
    Written(Unsigned128(value % TWO_32), rest);
    WrapsBack32(value, value % TWO_32);
    SameWrap(value);
  }

  lemma SignedReadsBack(value: Int32, rest: seq<Byte>)
    ensures Reading(Signed128(value) + rest, true) == Value(value, |Signed128(value)|)
  {
    FivePlaces();
    SignedWritten(value, 5);
    Written(Signed128(value), rest);
    WrapsBack32(value, value % TWO_32);
    SameWrap(value);
  }

  lemma FivePlaces()
    ensures Pow128(4) == 268435456 && Pow128(5) == 34359738368
  {
    Constants(0, 4);
    assert Pow128(5) == 128 * Pow128(4);
  }

  /** Every int reads back, whatever follows it, from the bytes written for it and no others. */
  lemma ReadingUndoesWriting(value: Int32, rest: seq<Byte>)
    ensures Reading(Unsigned128(value % TWO_32) + rest, false) == Value(value, |Unsigned128(value % TWO_32)|)
    ensures Reading(Signed128(value) + rest, true) == Value(value, |Signed128(value)|)
  {
    UnsignedReadsBack(value, rest);
    SignedReadsBack(value, rest);
  }
}
