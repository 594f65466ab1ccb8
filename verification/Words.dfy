/** Fixed-width integers and their little-endian bytes. */
module Words {

  type Byte = x: int | 0 <= x < 0x100
  type Int32 = x: int | -0x8000_0000 <= x < 0x8000_0000
  type Int64 = x: int | -0x8000_0000_0000_0000 <= x < 0x8000_0000_0000_0000
  type UInt64 = x: int | 0 <= x < 0x1_0000_0000_0000_0000

  const TWO_32: int := 0x1_0000_0000
  const TWO_64: int := 0x1_0000_0000_0000_0000

  /** Two's complement: the signed value with the same low 32 or 64 bits. */
  function Wrap32(x: int): Int32 {
    var u := x % TWO_32;
    if u < 0x8000_0000 then u else u - TWO_32
  }

  function Wrap64(x: int): Int64 {
    var u := x % TWO_64;
    if u < 0x8000_0000_0000_0000 then u else u - TWO_64
  }

  function Pow256(n: nat): (p: nat)
    ensures p > 0
  {
    if n == 0 then 1 else 256 * Pow256(n - 1)
  }

  /** The n low bytes of x, least significant first, as memcpy stores an integer. */
  function Little(x: int, n: nat): (bytes: seq<Byte>)
    ensures |bytes| == n
    decreases n
  {
    if n == 0 then [] else [x % 256] + Little(x / 256, n - 1)
  }

  /** The unsigned value of little-endian bytes. */
  function Value(bytes: seq<Byte>): nat {
    if bytes == [] then 0 else bytes[0] + 256 * Value(bytes[1..])
  }

  lemma {:induction false} ValueOfLittle(x: int, n: nat)
    ensures Value(Little(x, n)) == x % Pow256(n)
    decreases n
  {
    if n > 0 {
      ValueOfLittle(x / 256, n - 1);
      assert Little(x, n)[1..] == Little(x / 256, n - 1);
      ModStep(x, Pow256(n - 1));
    }
  }

  /** Byte k of an integer in memory has place value 256^k. */
  lemma {:induction false} LittleAt(x: int, n: nat, k: nat)
    requires k < n
    ensures Little(x, n)[k] == x / Pow256(k) % 256
    decreases n
  {
    if k > 0 {
      LittleAt(x / 256, n - 1, k - 1);
      DivideTwice(x, Pow256(k - 1));
    }
  }

  lemma DivideTwice(x: int, m: nat)
    requires m > 0
    ensures x / 256 / m == x / (256 * m)
  {
    var q := x / 256;
    var p, t := q / m, q % m;
    assert 256 * q == 256 * (m * p) + 256 * t;
    assert x == 256 * m * p + (256 * t + x % 256);
    Remainder(x, 256 * m, p, 256 * t + x % 256);
  }

  lemma ModStep(x: int, m: nat)
    requires m > 0
    ensures x % (256 * m) == x % 256 + 256 * ((x / 256) % m)
  {
    var q, r := x / 256, x % 256;
    var p, t := q / m, q % m;
    assert x == 256 * m * p + (r + 256 * t) by {
      assert q == m * p + t;
      assert 256 * q == 256 * (m * p) + 256 * t;
    }
    assert 0 <= r + 256 * t < 256 * m;
    Remainder(x, 256 * m, p, r + 256 * t);
  }

  /** Quotient and remainder are unique. */
  lemma Remainder(x: int, m: int, q: int, r: int)
    requires m > 0 && x == m * q + r && 0 <= r < m
    ensures x / m == q && x % m == r
  {
    var d := x / m - q;
    assert m * d == r - x % m;
    assert d >= 1 ==> m * d >= m;
    assert d <= -1 ==> m * d <= -m;
  }

  lemma Powers()
    ensures Pow256(2) == 0x1_0000 && Pow256(4) == TWO_32 && Pow256(8) == TWO_64
  {
    assert Pow256(2) == 256 * Pow256(1);
    assert Pow256(4) == 256 * Pow256(3) && Pow256(3) == 256 * Pow256(2);
    assert Pow256(6) == 256 * Pow256(5) && Pow256(5) == 256 * Pow256(4);
    assert Pow256(8) == 256 * Pow256(7) && Pow256(7) == 256 * Pow256(6);
  }

  lemma WrapsBack32(x: Int32, v: int)
    requires v == x % TWO_32
    ensures Wrap32(v) == x
  {
  }

  lemma WrapsBack64(x: Int64, v: int)
    requires v == x % TWO_64
    ensures Wrap64(v) == x
  {
  }

  lemma Reads32(x: Int32)
    ensures Wrap32(Value(Little(x, 4))) == x
  {
    var v := Value(Little(x, 4));
    assert v == x % TWO_32 by {
      ValueOfLittle(x, 4);
      Powers();
    }
    WrapsBack32(x, v);
  }

  lemma Reads64(x: Int64)
    ensures Wrap64(Value(Little(x, 8))) == x
  {
    var v := Value(Little(x, 8));
    assert v == x % TWO_64 by {
      ValueOfLittle(x, 8);
      Powers();
    }
    WrapsBack64(x, v);
  }
}
