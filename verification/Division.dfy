/** Division by 1000 as a reciprocal multiplication: cpp/writer/TimestampTruncatingVisitor.cpp. */
module Division {
  import opened Words

  const RECIPROCAL: UInt64 := 0x41_8937_4bc6_a7f4

  function Lo(x: UInt64): UInt64 {
    x % TWO_32
  }

  function Hi(x: UInt64): UInt64 {
    x / TWO_32
  }

  /** The product of two halves fits 64 bits with room for two more halves. */
  lemma HalvesFit(x: int, y: int)
    requires 0 <= x < TWO_32 && 0 <= y < TWO_32
    ensures 0 <= x * y <= (TWO_32 - 1) * (TWO_32 - 1)
  {
    var m := TWO_32 - 1;
    Grows(x, y, m);
    Grows(m, x, m);
  }

  lemma Grows(x: int, y: int, m: int)
    requires 0 <= x && 0 <= y <= m
    ensures 0 <= x * y <= x * m && x * m == m * x
  {
    assert x * m == x * y + x * (m - y);
  }

  /** Schoolbook multiplication, keeping the high word. */
  lemma Schoolbook(aHi: int, aLo: int, bHi: int, bLo: int, r: int)
    requires 0 <= aLo < TWO_32 && 0 <= bLo < TWO_32
    requires var mid := (aHi * bLo) % TWO_32 + (bHi * aLo) % TWO_32 + (aLo * bLo) / TWO_32;
             r == aHi * bHi + (aHi * bLo) / TWO_32 + (bHi * aLo) / TWO_32 + mid / TWO_32
    ensures (aHi * TWO_32 + aLo) * (bHi * TWO_32 + bLo) / TWO_64 == r
  {
    var hh, hl, lh, ll := aHi * bHi, aHi * bLo, bHi * aLo, aLo * bLo;
    var mid := hl % TWO_32 + lh % TWO_32 + ll / TWO_32;
    var product := (aHi * TWO_32 + aLo) * (bHi * TWO_32 + bLo);
    Expand(aHi, aLo, bHi, bLo);
    assert product == TWO_64 * hh + TWO_32 * (hl + lh) + ll;
    var low := TWO_32 * (mid % TWO_32) + ll % TWO_32;
    assert product == TWO_64 * r + low;
    Remainder(product, TWO_64, r, low);
  }

  lemma Expand(aHi: int, aLo: int, bHi: int, bLo: int)
    ensures (aHi * TWO_32 + aLo) * (bHi * TWO_32 + bLo)
            == TWO_64 * (aHi * bHi) + TWO_32 * (aHi * bLo + bHi * aLo) + aLo * bLo
  {
    var y := bHi * TWO_32 + bLo;
    assert (aHi * TWO_32 + aLo) * y == aHi * TWO_32 * y + aLo * y;
    assert aHi * TWO_32 * y == TWO_32 * (aHi * y);
    assert aHi * y == TWO_32 * (aHi * bHi) + aHi * bLo;
    assert aLo * y == TWO_32 * (bHi * aLo) + aLo * bLo;
  }

  /** mulhi: the high 64 bits of the 128-bit product. Every intermediate value is a UInt64, so
      no step of the computation overflows. */
  function MulHi(a: UInt64, b: UInt64): (r: UInt64)
    ensures r == a * b / TWO_64
  {
    HalvesFit(Hi(a), Hi(b));
    HalvesFit(Hi(a), Lo(b));
    HalvesFit(Hi(b), Lo(a));
    HalvesFit(Lo(a), Lo(b));
    var high: UInt64 := Hi(a) * Hi(b);
    var aMid: UInt64 := Hi(a) * Lo(b);
    var bMid: UInt64 := Hi(b) * Lo(a);
    var low: UInt64 := Lo(a) * Lo(b);
    var midSum: UInt64 := Lo(aMid) + Lo(bMid) + Hi(low);
    var carry: UInt64 := Hi(midSum);
    var sum: UInt64 := high + Hi(aMid) + Hi(bMid) + carry;
    Schoolbook(Hi(a), Lo(a), Hi(b), Lo(b), sum);
    sum
  }

  /** div_1000 */
  function Div1000(n: UInt64): UInt64 {
    MulHi(n, RECIPROCAL)
  }

  /** By how much div_1000 exceeds the quotient, in closed form. */
  function Excess(n: UInt64): nat {
    (4384 * n + (n % 1000) * TWO_64) / (1000 * TWO_64)
  }

  lemma DivisionInClosedForm(n: UInt64)
    ensures Div1000(n) == n / 1000 + Excess(n)
    ensures Excess(n) <= 5
  {
    var q, r := n / 1000, n % 1000;
    assert 1000 * RECIPROCAL == TWO_64 + 4384;
    var spill := 4384 * n + r * TWO_64;
    var e, low := spill / (1000 * TWO_64), spill % (1000 * TWO_64);
    assert 1000 * (n * RECIPROCAL) == n * TWO_64 + 4384 * n == (1000 * TWO_64) * (q + e) + low;
    Scaled(n * RECIPROCAL, TWO_64, q + e, low);
  }

  lemma Scaled(x: int, m: int, q: int, low: int)
    requires m > 0 && 1000 * x == (1000 * m) * q + low && 0 <= low < 1000 * m
    ensures x / m == q
  {
    var d := x - m * q;
    assert 1000 * d == low by { assert (1000 * m) * q == 1000 * (m * q); }
    Remainder(x, m, q, d);
  }

  /** div_1000 is division exactly when the rounding error of the reciprocal does not carry. */
  lemma DivisionIsExact(n: UInt64)
    ensures Div1000(n) == n / 1000 <==> (n % 1000) * TWO_64 + 4384 * n < 1000 * TWO_64
    ensures 4384 * n < TWO_64 ==> Div1000(n) == n / 1000
    ensures n / 1000 <= Div1000(n) <= n / 1000 + 5
  {
    DivisionInClosedForm(n);
    var spill := 4384 * n + (n % 1000) * TWO_64;
    assert Excess(n) == 0 <==> spill < 1000 * TWO_64;
  }

  /** The bound is tight: past 2^64 / 4384 the last value before a multiple of 1000 goes wrong,
      and near the top of the range the error does reach 5. */
  lemma DivisionFails()
    ensures var n: UInt64 := 4207742717543999; Div1000(n) == n / 1000 + 1
    ensures var n: UInt64 := 18446744073709550999; Div1000(n) == n / 1000 + 5
  {
    DivisionInClosedForm(4207742717543999);
    DivisionInClosedForm(18446744073709550999);
  }

  lemma DivisionIsMonotone(m: UInt64, n: UInt64)
    requires m <= n
    ensures Div1000(m) <= Div1000(n)
  {
    assert m * RECIPROCAL <= n * RECIPROCAL;
  }

  /** Nanoseconds to microseconds: what truncateTimestamp computes, as one multiplication. The sum is
      taken unsigned; the quotient fits the signed field it is stored in. */
  function Truncate(timestamp: Int64): (r: Int64)
    ensures 0 <= r
  {
    ((timestamp + 500) % 0x1_0000_0000_0000_0000) * 0x41_8937_4bc6_a7f4 / 0x1_0000_0000_0000_0000
  }

  /** truncateTimestamp itself: a signed addition, then div_1000. */
  lemma TruncateIsDivision(timestamp: Int64)
    ensures Truncate(timestamp) == Div1000(Wrap64(timestamp + 500) % TWO_64)
  {
    assert Wrap64(timestamp + 500) % TWO_64 == (timestamp + 500) % TWO_64;
  }

  method TruncateTimestamp(timestamp: Int64) returns (r: Int64)
    ensures r == Truncate(timestamp)
  {
    TruncateIsDivision(timestamp);
    r := Div1000(Wrap64(timestamp + 500) % TWO_64);
  }

  /** The truncated timestamp is the nearest microsecond for the first 2^64 / 4384 nanoseconds, about
      48 days; later it is never early and at most 5 microseconds late. A timestamp below -500 never
      comes out right. A sum that wraps around comes out right again, being taken unsigned. */
  lemma TruncateRounds(t: Int64)
    ensures Truncate(t) == (t + 500) / 1000
            <==> -500 <= t && ((t + 500) % 1000) * TWO_64 + 4384 * (t + 500) < 1000 * TWO_64
    ensures -500 <= t && 4384 * (t + 500) < TWO_64 ==> -500 <= t - 1000 * Truncate(t) < 500
    ensures -500 <= t ==> -5500 <= t - 1000 * Truncate(t) < 500
  {
    if -500 <= t {
      TruncateIsDivision(t);
      assert Wrap64(t + 500) % TWO_64 == t + 500;
      DivisionIsExact(t + 500);
    } else {
      assert (t + 500) / 1000 < 0;
    }
  }

  lemma TruncateIsMonotone(t: Int64, u: Int64)
    requires -500 <= t <= u
    ensures Truncate(t) <= Truncate(u)
  {
    assert (t + 500) % TWO_64 == t + 500 && (u + 500) % TWO_64 == u + 500;
  }
}
