/** The integers of encoded_value: deps/dex/EncodedValueCodec.java. */
module EncodedValue {
  import opened Wrappers
  import opened Words
  import opened Bits

  // ---------------------------------------------------------------- widths

  /** 64 - numberOfLeadingZeros(x) */
  function BitLength(x: nat): nat {
    if x == 0 then 0 else 1 + BitLength(x / 2)
  }

  /** numberOfTrailingZeros(x) */
  function TrailingZeros(x: Int64): nat {
    if x == 0 then 64 else ZerosBelow(x)
  }

  function ZerosBelow(x: int): nat
    requires x != 0
    decreases if x > 0 then x else -x
  {
    if x % 2 == 1 then 0 else 1 + ZerosBelow(x / 2)
  }

  function Bytes(bits: nat): nat {
    (bits + 7) / 8
  }

  /** value ^ (value >> 63) leaves a nonnegative value alone and complements a negative one. */
  function Folded(v: int): nat {
    if v >= 0 then v else -v - 1
  }

  function SignedWidth(v: Int64): nat {
    Bytes(1 + BitLength(Folded(v)))
  }

  function UnsignedWidth(v: Int64): nat {
    var bits := BitLength(v % TWO_64);
    Bytes(if bits == 0 then 1 else bits)
  }

  function RightWidth(v: Int64): int {
    var bits := 64 - TrailingZeros(v);
    (if bits == 0 then 8 else bits + 7) / 8
  }

  /** value >> (8 * n), the sign shifted in. */
  function ShiftBytes(x: int, n: nat): int
    decreases n
  {
    if n == 0 then x else ShiftBytes(x / 256, n - 1)
  }

  // ---------------------------------------------------------------- what the bytes stand for

  /** Little-endian two's complement. */
  function SignedValue(bytes: seq<Byte>): int {
    Value(bytes) - if bytes != [] && bytes[|bytes| - 1] >= 128 then Pow256(|bytes|) else 0
  }

  function Zeros(n: nat): (z: seq<Byte>)
    ensures |z| == n
  {
    if n == 0 then [] else [0] + Zeros(n - 1)
  }

  lemma {:induction false} ValueLast(bytes: seq<Byte>, b: Byte)
    ensures Value(bytes + [b]) == Value(bytes) + Pow256(|bytes|) * b
    ensures Value(bytes) < Pow256(|bytes|)
  {
    if bytes == [] {
      assert [b][1..] == [] && bytes + [b] == [b];
    } else {
      var rest, p := bytes[1..], Pow256(|bytes| - 1);
      ValueLast(rest, b);
      assert (bytes + [b])[0] == bytes[0] && (bytes + [b])[1..] == rest + [b];
      assert 256 * (p * b) == (256 * p) * b;
    }
  }

  /** The top bit is the sign. */
  lemma {:induction false} TopBit(bytes: seq<Byte>)
    requires bytes != []
    ensures bytes[|bytes| - 1] >= 128 <==> 2 * Value(bytes) >= Pow256(|bytes|)
    ensures Value(bytes) < Pow256(|bytes|) && Pow256(|bytes|) % 2 == 0
  {
    var rest := bytes[1..];
    if rest == [] {
      assert Value(rest) == 0 && Pow256(1) == 256 * Pow256(0);
    } else {
      TopBit(rest);
      assert rest[|rest| - 1] == bytes[|bytes| - 1];
      DoubledByte(bytes[0], Value(rest), Pow256(|rest|));
    }
  }

  lemma DoubledByte(b: Byte, v: nat, p: nat)
    requires v < p && p % 2 == 0
    ensures 2 * (b + 256 * v) >= 256 * p <==> 2 * v >= p
    ensures b + 256 * v < 256 * p
  {
  }

  // ---------------------------------------------------------------- writing

  /** The header byte: the type, and the number of bytes less one above it. */
  function Header(kind: nat, n: nat): Byte
    requires kind < 32 && 1 <= n <= 8
  {
    HeaderFits(kind, n);
    Or(kind, ShiftLeft(n - 1, 5))
  }

  lemma HeaderFits(kind: nat, n: nat)
    requires kind < 32 && 1 <= n <= 8
    ensures Or(kind, ShiftLeft(n - 1, 5)) == kind + 32 * (n - 1)
  {
    assert Pow2(5) == 32 by {
      assert Pow2(5) == 2 * Pow2(4) && Pow2(4) == 2 * Pow2(3) && Pow2(3) == 2 * Pow2(2) && Pow2(2) == 2 * Pow2(1);
    }
    assert ShiftLeft(n - 1, 5) == 2 * ShiftLeft(n - 1, 4) && ShiftLeft(n - 1, 4) == 2 * ShiftLeft(n - 1, 3);
    assert ShiftLeft(n - 1, 3) == 2 * ShiftLeft(n - 1, 2) && ShiftLeft(n - 1, 2) == 2 * ShiftLeft(n - 1, 1);
    OrDisjoint(kind, n - 1, 5);
  }

  /** The loop that all three writers end with. */
  method WriteBytes(value: int, requiredBytes: nat) returns (out: seq<Byte>)
    ensures out == Little(value, requiredBytes)
  {
    out := [];
    var v, n := value, requiredBytes;
    while n > 0
      invariant out + Little(v, n) == Little(value, requiredBytes)
    {
      Associates(out, [v % 256], Little(v / 256, n - 1));
      out := out + [v % 256];
      v := v / 256;
      n := n - 1;
    }
  }

  method WriteSigned(kind: nat, v: Int64) returns (out: seq<Byte>)
    requires kind < 32
    ensures 1 <= SignedWidth(v) <= 8
    ensures out == [Header(kind, SignedWidth(v))] + Little(v, SignedWidth(v))
  {
    SignedFits(v);
    var requiredBits := 1 + BitLength(Folded(v));
    var requiredBytes := (requiredBits + 7) / 8;
    var bytes := WriteBytes(v, requiredBytes);
    out := [Header(kind, requiredBytes)] + bytes;
  }

  method WriteUnsigned(kind: nat, v: Int64) returns (out: seq<Byte>)
    requires kind < 32
    ensures 1 <= UnsignedWidth(v) <= 8
    ensures out == [Header(kind, UnsignedWidth(v))] + Little(v, UnsignedWidth(v))
  {
    UnsignedFits(v);
    var requiredBits := BitLength(v % TWO_64);
    if requiredBits == 0 {
      requiredBits := 1;
    }
    var requiredBytes := (requiredBits + 7) / 8;
    var bytes := WriteBytes(v, requiredBytes);
    out := [Header(kind, requiredBytes)] + bytes;
  }

  method WriteRightZeroExtended(kind: nat, v: Int64) returns (out: seq<Byte>)
    requires kind < 32
    ensures 1 <= RightWidth(v) <= 8
    ensures out == [Header(kind, RightWidth(v))] + Little(ShiftBytes(v, 8 - RightWidth(v)), RightWidth(v))
  {
    RightFits(v);
    var requiredBits := 64 - TrailingZeros(v);
    if requiredBits == 0 {
      requiredBits := 1;
    }
    var requiredBytes := (requiredBits + 7) / 8;
    var bytes := WriteBytes(ShiftBytes(v, 8 - requiredBytes), requiredBytes);
    out := [Header(kind, requiredBytes)] + bytes;
  }

  // ---------------------------------------------------------------- the widths suffice

  lemma {:induction false} BitLengthIs(x: nat)
    ensures x < Pow2(BitLength(x)) && (x > 0 ==> 2 * x >= Pow2(BitLength(x)))
  {
    if x > 0 {
      BitLengthIs(x / 2);
    }
  }

  lemma {:induction false} BitLengthAtMost(x: nat, n: nat)
    requires x < Pow2(n)
    ensures BitLength(x) <= n
  {
    if x > 0 {
      BitLengthAtMost(x / 2, n - 1);
    }
  }

  lemma {:induction false} Pow2Grows(m: nat, n: nat)
    requires m <= n
    ensures Pow2(m) <= Pow2(n)
  {
    if m < n {
      Pow2Grows(m, n - 1);
    }
  }

  lemma {:induction false} BytesOfBits(n: nat)
    ensures Pow256(n) == Pow2(8 * n)
  {
    if n > 0 {
      BytesOfBits(n - 1);
      var p := Pow2(8 * n - 8);
      assert Pow2(8 * n - 4) == 16 * p by {
        assert Pow2(8 * n - 4) == 2 * Pow2(8 * n - 5) && Pow2(8 * n - 5) == 2 * Pow2(8 * n - 6);
        assert Pow2(8 * n - 6) == 2 * Pow2(8 * n - 7) && Pow2(8 * n - 7) == 2 * p;
      }
      assert Pow2(8 * n) == 2 * Pow2(8 * n - 1) && Pow2(8 * n - 1) == 2 * Pow2(8 * n - 2);
      assert Pow2(8 * n - 2) == 2 * Pow2(8 * n - 3) && Pow2(8 * n - 3) == 2 * Pow2(8 * n - 4);
    }
  }

  lemma Sixty4()
    ensures Pow2(64) == TWO_64 && Pow2(63) == 0x8000_0000_0000_0000
  {
    BytesOfBits(8);
    Powers();
    assert Pow2(64) == 2 * Pow2(63);
  }

  predicate FitsSigned(v: int, n: nat) {
    var p: int := Pow256(n);
    -p <= 2 * v < p
  }

  /** A signed value fits its width, and no smaller one. */
  lemma SignedFits(v: Int64)
    ensures var n := SignedWidth(v);
            && 1 <= n <= 8 && FitsSigned(v, n)
            && (n > 1 ==> !FitsSigned(v, n - 1))
  {
    var x := Folded(v);
    var bits, n := BitLength(x), SignedWidth(v);
    Sixty4();
    BitLengthAtMost(x, 63);
    FoldedFits(x, bits, n);
  }

  lemma FoldedFits(x: nat, bits: nat, n: nat)
    requires bits == BitLength(x) && n == Bytes(1 + bits)
    ensures 2 * x < Pow256(n) && Pow256(n) % 2 == 0 && (n > 1 ==> 2 * x >= Pow256(n - 1))
  {
    assert bits + 1 <= 8 * n && 8 * (n - 1) <= bits;
    BitLengthIs(x);
    Between(n, bits);
    assert Pow256(n) == 256 * Pow256(n - 1);
  }

  lemma Between(n: nat, bits: nat)
    requires n > 0 && bits + 1 <= 8 * n && 8 * (n - 1) <= bits
    ensures Pow256(n - 1) <= Pow2(bits) && 2 * Pow2(bits) <= Pow256(n)
  {
    BytesOfBits(n);
    BytesOfBits(n - 1);
    Pow2Grows(bits + 1, 8 * n);
    Pow2Grows(8 * (n - 1), bits);
    assert Pow2(bits + 1) == 2 * Pow2(bits);
  }

  lemma UnsignedFits(v: Int64)
    ensures var n := UnsignedWidth(v);
            && 1 <= n <= 8 && v % TWO_64 < Pow256(n) && (v < 0 ==> n == 8)
            && (n > 1 ==> v % TWO_64 >= Pow256(n - 1))
  {
    var x := v % TWO_64;
    var bits, n := BitLength(x), UnsignedWidth(v);
    Sixty4();
    BitLengthAtMost(x, 64);
    PatternFits(x, bits, n);
    if v < 0 {
      TopBitSet(x);
    }
  }

  lemma PatternFits(x: nat, bits: nat, n: nat)
    requires bits == BitLength(x) && n == Bytes(if bits == 0 then 1 else bits)
    ensures x < Pow256(n) && (n > 1 ==> x >= Pow256(n - 1))
  {
    BitLengthIs(x);
    BytesOfBits(n);
    Pow2Grows(bits, 8 * n);
    if n > 1 {
      BytesOfBits(n - 1);
      Pow2Grows(8 * (n - 1), bits - 1);
      assert Pow2(bits) == 2 * Pow2(bits - 1);
    }
  }

  lemma TopBitSet(x: nat)
    requires x >= Pow2(63)
    ensures BitLength(x) >= 64
  {
    BitLengthIs(x);
    if BitLength(x) < 64 {
      Pow2Grows(BitLength(x), 63);
    }
  }

  /** The bytes shifted out are zero. */
  predicate EndsInZeros(x: int, n: nat)
    decreases n
  {
    n == 0 || (x % 256 == 0 && EndsInZeros(x / 256, n - 1))
  }

  lemma {:induction false} ZerosBelowBounded(x: int, n: nat)
    requires x != 0 && 0 <= x + Pow2(n) && x < Pow2(n)
    ensures ZerosBelow(x) <= n
    decreases n
  {
    if x % 2 == 0 {
      ZerosBelowBounded(x / 2, n - 1);
    }
  }

  lemma {:induction false} ZerosAreBytes(x: int, n: nat)
    requires x == 0 || ZerosBelow(x) >= 8 * n
    ensures EndsInZeros(x, n)
    decreases n
  {
    if n > 0 {
      if x != 0 {
        Halve4(x);
        Halve4(x / 16);
      }
      ZerosAreBytes(x / 256, n - 1);
    }
  }

  lemma Halve4(x: int)
    requires x != 0 && ZerosBelow(x) >= 4
    ensures x % 16 == 0 && x / 16 != 0 && ZerosBelow(x / 16) == ZerosBelow(x) - 4
  {
    var a := x / 2;
    var b := a / 2;
    var c := b / 2;
    assert x % 2 == 0 && ZerosBelow(a) == ZerosBelow(x) - 1;
    assert a % 2 == 0 && ZerosBelow(b) == ZerosBelow(a) - 1;
    assert b % 2 == 0 && ZerosBelow(c) == ZerosBelow(b) - 1;
    assert c % 2 == 0 && c / 2 == x / 16;
  }

  lemma Double4(x: int)
    requires x != 0 && x % 16 == 0
    ensures x / 16 != 0 && ZerosBelow(x) == 4 + ZerosBelow(x / 16)
  {
    var a := x / 2;
    var b := a / 2;
    var c := b / 2;
    assert x % 2 == 0 && ZerosBelow(x) == 1 + ZerosBelow(a);
    assert a % 2 == 0 && ZerosBelow(a) == 1 + ZerosBelow(b);
    assert b % 2 == 0 && ZerosBelow(b) == 1 + ZerosBelow(c);
    assert c % 2 == 0 && c / 2 == x / 16;
  }

  lemma Double8(x: int)
    requires x != 0 && x % 256 == 0
    ensures x / 256 != 0 && ZerosBelow(x) == 8 + ZerosBelow(x / 256)
  {
    var y := x / 16;
    assert x % 16 == 0 && y % 16 == 0 && y / 16 == x / 256;
    Double4(x);
    Double4(y);
  }

  lemma {:induction false} BytesAreZeros(x: int, n: nat)
    requires x != 0
    ensures EndsInZeros(x, n) ==> ZerosBelow(x) >= 8 * n
    decreases n
  {
    if n > 0 && EndsInZeros(x, n) {
      Double8(x);
      BytesAreZeros(x / 256, n - 1);
    }
  }

  /** The bytes that are not written are zero, and no more of them could be left out. */
  lemma RightFits(v: Int64)
    ensures 1 <= RightWidth(v) <= 8 && EndsInZeros(v, 8 - RightWidth(v))
    ensures v != 0 ==> !EndsInZeros(v, 9 - RightWidth(v))
    ensures RightWidth(0) == 1
  {
    Sixty4();
    if v != 0 {
      ZerosBelowBounded(v, 63);
      BytesAreZeros(v, 9 - RightWidth(v));
    }
    ZerosAreBytes(v, 8 - RightWidth(v));
  }

  // ---------------------------------------------------------------- reading

  /** result = (result >>> 8) | (b << 56): the last eight bytes read, zeros before them. */
  function Window(bytes: seq<Byte>): seq<Byte>
    requires |bytes| <= 8
  {
    Zeros(8 - |bytes|) + bytes
  }

  /** The bits below a long's top byte. */
  function TopByte(): nat {
    56
  }

  lemma WindowMoves(bytes: seq<Byte>, b: Byte)
    requires |bytes| < 8
    ensures Or(Value(Window(bytes)) / 256, ShiftLeft(b, TopByte())) == Value(Window(bytes + [b]))
  {
    var rest := Zeros(7 - |bytes|) + bytes;
    WindowShape(bytes, b, rest);
    ZeroFirst(rest);
    PutOnTop(rest, b, TopByte());
  }

  lemma WindowShape(bytes: seq<Byte>, b: Byte, rest: seq<Byte>)
    requires |bytes| < 8 && rest == Zeros(7 - |bytes|) + bytes
    ensures |rest| == 7 && Window(bytes) == [0] + rest && Window(bytes + [b]) == rest + [b]
  {
    var z := Zeros(7 - |bytes|);
    assert Zeros(8 - |bytes|) == [0] + z;
    Associates([0], z, bytes);
    Associates(z, bytes, [b]);
  }

  lemma PutOnTop(rest: seq<Byte>, b: Byte, bits: nat)
    requires 8 * |rest| == bits
    ensures Or(Value(rest), ShiftLeft(b, bits)) == Value(rest + [b])
  {
    ValueLast(rest, b);
    BytesOfBits(|rest|);
    OrDisjoint(Value(rest), b, bits);
    ShiftIs(b, bits);
  }

  lemma {:induction false} ShiftIs(x: nat, n: nat)
    ensures ShiftLeft(x, n) == Pow2(n) * x
    decreases n
  {
    if n > 0 {
      ShiftIs(x, n - 1);
      assert 2 * (Pow2(n - 1) * x) == (2 * Pow2(n - 1)) * x;
    }
  }

  /** The loop that all the readers share; zwidth is the number of bytes less one. */
  method ReadBytes(input: seq<Byte>, zwidth: nat) returns (result: nat)
    requires zwidth < 8 && zwidth < |input|
    ensures result == Value(Window(input[..zwidth + 1])) < TWO_64
  {
    result := 0;
    var k := 0;
    ZerosValue(8);
    assert Window(input[..0]) == Zeros(8);
    while k <= zwidth
      invariant 0 <= k <= zwidth + 1
      invariant result == Value(Window(input[..k]))
    {
      WindowMoves(input[..k], input[k]);
      assert input[..k + 1] == input[..k] + [input[k]];
      result := Or(result / 256, ShiftLeft(input[k], TopByte()));
      k := k + 1;
    }
    TopBit(Window(input[..k]));
    Powers();
  }

  lemma {:induction false} ZerosValue(n: nat)
    ensures Value(Zeros(n)) == 0
  {
    if n > 0 {
      ZerosValue(n - 1);
      assert Zeros(n)[1..] == Zeros(n - 1);
    }
  }

  /** Shifting right by the bytes that were not read leaves the ones that were. */
  lemma {:induction false} ShiftedDown(bytes: seq<Byte>, m: nat)
    requires bytes != []
    ensures ShiftBytes(Value(Zeros(m) + bytes), m) == Value(bytes)
    ensures ShiftBytes(SignedValue(Zeros(m) + bytes), m) == SignedValue(bytes)
    decreases m
  {
    if m == 0 {
      assert Zeros(0) + bytes == bytes;
    } else {
      var rest := Zeros(m - 1) + bytes;
      ShiftedDown(bytes, m - 1);
      assert Zeros(m) + bytes == [0] + rest;
      ZeroFirst(rest);
    }
  }

  lemma ZeroFirst(rest: seq<Byte>)
    requires rest != []
    ensures Value([0] + rest) == 256 * Value(rest) && SignedValue([0] + rest) == 256 * SignedValue(rest)
  {
    var all := [0] + rest;
    assert all[1..] == rest && all[|all| - 1] == rest[|rest| - 1];
  }

  /** Eight bytes as a Java long. */
  lemma AsLong(bytes: seq<Byte>)
    requires |bytes| == 8
    ensures Wrap64(Value(bytes)) == SignedValue(bytes)
  {
    TopBit(bytes);
    Powers();
  }

  method ReadSignedLong(input: seq<Byte>, zwidth: nat) returns (r: int)
    requires zwidth < 8 && zwidth < |input|
    ensures r == SignedValue(input[..zwidth + 1])
  {
    var result := ReadBytes(input, zwidth);
    AsLong(Window(input[..zwidth + 1]));
    ShiftedDown(input[..zwidth + 1], 7 - zwidth);
    r := ShiftBytes(Wrap64(result), 7 - zwidth);
  }

  method ReadUnsignedLong(input: seq<Byte>, zwidth: nat, fillOnRight: bool) returns (r: Int64)
    requires zwidth < 8 && zwidth < |input|
    ensures r == Wrap64(Value(if fillOnRight then Window(input[..zwidth + 1]) else input[..zwidth + 1]))
  {
    var result := ReadBytes(input, zwidth);
    if fillOnRight {
      r := Wrap64(result);
    } else {
      ShiftedDown(input[..zwidth + 1], 7 - zwidth);
      r := Wrap64(ShiftBytes(result, 7 - zwidth));
    }
  }

  // ---------------------------------------------------------------- round trips

  lemma SignedReadsBack(v: Int64)
    ensures SignedValue(Little(v, SignedWidth(v))) == v
  {
    var n := SignedWidth(v);
    SignedFits(v);
    SignedLittle(v, n);
  }

  lemma SignedLittle(v: int, n: nat)
    requires n > 0 && FitsSigned(v, n)
    ensures SignedValue(Little(v, n)) == v
  {
    var bytes, p := Little(v, n), Pow256(n);
    ValueOfLittle(v, n);
    TopBit(bytes);
    if v >= 0 {
      Remainder(v, p, 0, v);
    } else {
      Remainder(v, p, -1, v + p);
    }
  }

  lemma UnsignedReadsBack(v: Int64)
    ensures Wrap64(Value(Little(v, UnsignedWidth(v)))) == v
  {
    var n := UnsignedWidth(v);
    UnsignedFits(v);
    Powers();
    SameRemainder(v, Pow256(n));
    ValueOfLittle(v, n);
    WrapsBack64(v, Value(Little(v, n)));
  }

  lemma SameRemainder(v: Int64, p: nat)
    requires v % TWO_64 < p && (v < 0 ==> p == TWO_64)
    ensures v % p == v % TWO_64
  {
    if v >= 0 {
      Remainder(v, p, 0, v);
    }
  }

  lemma {:induction false} ZerosInFront(x: int, m: nat, n: nat)
    requires EndsInZeros(x, m)
    ensures Little(x, m + n) == Zeros(m) + Little(ShiftBytes(x, m), n)
    decreases m
  {
    if m > 0 {
      ZerosInFront(x / 256, m - 1, n);
    }
  }

  lemma RightReadsBack(v: Int64)
    ensures 1 <= RightWidth(v) <= 8
    ensures Wrap64(Value(Window(Little(ShiftBytes(v, 8 - RightWidth(v)), RightWidth(v))))) == v
  {
    RightFits(v);
    ZerosInFront(v, 8 - RightWidth(v), RightWidth(v));
    Reads64(v);
  }

  /** Reading by the width in the header: the bytes after it are those written, and the value
      comes back, for every 64-bit value and each of the three encodings. */
  lemma ReadingUndoesWriting(kind: nat, v: Int64)
    requires kind < 32
    ensures 1 <= SignedWidth(v) <= 8 && 1 <= UnsignedWidth(v) <= 8 && 1 <= RightWidth(v) <= 8
    ensures forall n :: 1 <= n <= 8 ==> Header(kind, n) / 32 == n - 1 && Header(kind, n) % 32 == kind
    ensures SignedValue(Little(v, SignedWidth(v))) == v
    ensures Wrap64(Value(Little(v, UnsignedWidth(v)))) == v
    ensures Wrap64(Value(Window(Little(ShiftBytes(v, 8 - RightWidth(v)), RightWidth(v))))) == v
  {
    SignedFits(v);
    UnsignedFits(v);
    SignedReadsBack(v);
    UnsignedReadsBack(v);
    RightReadsBack(v);
    forall n | 1 <= n <= 8 ensures Header(kind, n) / 32 == n - 1 && Header(kind, n) % 32 == kind {
      HeaderFits(kind, n);
    }
  }
}
