/** Bitwise operations on natural numbers, and the arithmetic they stand for. */
module Bits {
  import Words

  function Pow2(n: nat): (p: nat)
    ensures p > 0
  {
    if n == 0 then 1 else 2 * Pow2(n - 1)
  }

  function And(x: nat, y: nat): nat {
    if x == 0 || y == 0 then 0 else (if x % 2 == 1 && y % 2 == 1 then 1 else 0) + 2 * And(x / 2, y / 2)
  }

  function Xor(x: nat, y: nat): nat
    decreases x + y
  {
    if x == 0 && y == 0 then 0 else (if x % 2 == y % 2 then 0 else 1) + 2 * Xor(x / 2, y / 2)
  }

  function Or(x: nat, y: nat): nat
    decreases x + y
  {
    if x == 0 && y == 0 then 0 else (if x % 2 == 1 || y % 2 == 1 then 1 else 0) + 2 * Or(x / 2, y / 2)
  }

  function ShiftRight(x: nat, n: nat): nat {
    if n == 0 then x else ShiftRight(x / 2, n - 1)
  }

  function ShiftLeft(x: nat, n: nat): nat {
    if n == 0 then x else 2 * ShiftLeft(x, n - 1)
  }

  lemma {:induction false} AndSelf(x: nat)
    ensures And(x, x) == x
  {
    if x > 0 {
      AndSelf(x / 2);
    }
  }

  /** The bits of a conjunction are in both; in particular the last one. */
  lemma {:induction false} AndBelow(x: nat, y: nat)
    ensures And(x, y) <= x && (And(x, y) % 2 == 1 <==> x % 2 == 1 && y % 2 == 1)
  {
    if x > 0 && y > 0 {
      AndBelow(x / 2, y / 2);
    }
  }

  predicate IsPow2(m: nat) {
    m == 1 || (m > 0 && m % 2 == 0 && IsPow2(m / 2))
  }

  lemma {:induction false} Exponent(m: nat) returns (n: nat)
    requires IsPow2(m)
    ensures m == Pow2(n)
  {
    if m == 1 {
      n := 0;
    } else {
      var k := Exponent(m / 2);
      n := k + 1;
    }
  }

  /** (m - 1) & m == 0 tests for a power of two. */
  lemma {:induction false} PowerOfTwoTest(m: nat)
    requires m > 0
    ensures And(m - 1, m) == 0 <==> IsPow2(m)
  {
    if m > 1 {
      var h := m / 2;
      if m % 2 == 1 {
        AndSelf(h);
        assert And(m - 1, m) == 2 * And(h, h);
      } else {
        PowerOfTwoTest(h);
        assert And(m - 1, m) == 2 * And(h - 1, h);
      }
    }
  }

  /** Masking with 2^n - 1 is the remainder modulo 2^n. */
  lemma {:induction false} MaskIsRemainder(x: nat, n: nat)
    ensures And(x, Pow2(n) - 1) == x % Pow2(n)
    decreases n
  {
    if n == 0 {
      assert And(x, 0) == 0;
    } else {
      var m, h := Pow2(n - 1), x / 2;
      MaskIsRemainder(h, n - 1);
      AndOdd(x, m - 1);
      HalveRemainder(x, m);
      assert Pow2(n) == 2 * m;
    }
  }

  lemma AndOdd(x: nat, y: nat)
    ensures And(x, 2 * y + 1) == x % 2 + 2 * And(x / 2, y)
  {
    assert (2 * y + 1) % 2 == 1 && (2 * y + 1) / 2 == y;
  }

  lemma HalveRemainder(x: nat, m: nat)
    requires m > 0
    ensures x % (2 * m) == x % 2 + 2 * ((x / 2) % m)
  {
    var h, b := x / 2, x % 2;
    var q, t := h / m, h % m;
    assert h == m * q + t;
    Words.Remainder(x, 2 * m, q, b + 2 * t) by {
      assert (2 * m) * q == 2 * (m * q);
    }
  }

  /** x ^ y shifted right by one is zero exactly when x and y agree but for the last bit. */
  lemma XorTest(x: nat, y: nat)
    ensures ShiftRight(Xor(x, y), 1) == 0 <==> x / 2 == y / 2
  {
    assert ShiftRight(Xor(x, y), 1) == Xor(x, y) / 2;
    XorZero(x / 2, y / 2);
  }

  lemma {:induction false} XorZero(x: nat, y: nat)
    ensures Xor(x, y) == 0 <==> x == y
  {
    if x > 0 || y > 0 {
      XorZero(x / 2, y / 2);
    }
  }

  lemma {:induction false} OrZero(x: nat)
    ensures Or(x, 0) == x && Or(0, x) == x
  {
    if x > 0 {
      OrZero(x / 2);
    }
  }

  /** Bits that do not overlap add up. */
  lemma {:induction false} OrDisjoint(x: nat, y: nat, n: nat)
    requires x < Pow2(n)
    ensures Or(x, ShiftLeft(y, n)) == x + ShiftLeft(y, n)
    decreases n
  {
    if n == 0 {
      OrZero(y);
    } else {
      OrDisjoint(x / 2, y, n - 1);
      OrEven(x, ShiftLeft(y, n - 1));
    }
  }

  lemma OrEven(x: nat, h: nat)
    ensures Or(x, 2 * h) == x % 2 + 2 * Or(x / 2, h)
  {
    assert (2 * h) / 2 == h && (2 * h) % 2 == 0;
  }

  lemma AndEven(x: nat, h: nat)
    ensures And(2 * h, x) == 2 * And(h, x / 2)
  {
    assert (2 * h) / 2 == h && (2 * h) % 2 == 0;
    assert x / 2 == 0 ==> And(h, x / 2) == 0;
  }

  lemma {:induction false} AndShifted(m: nat, x: nat, n: nat)
    ensures And(ShiftLeft(m, n), x) == ShiftLeft(And(m, ShiftRight(x, n)), n)
    decreases n
  {
    if n > 0 {
      AndShifted(m, x / 2, n - 1);
      AndEven(x, ShiftLeft(m, n - 1));
    }
  }

  lemma {:induction false} AndOnes(x: nat, n: nat)
    requires x < Pow2(n)
    ensures And(Pow2(n) - 1, x) == x
    decreases n
  {
    if n > 0 && x > 0 {
      var m := Pow2(n - 1);
      AndOnes(x / 2, n - 1);
      assert (2 * m - 1) / 2 == m - 1 && (2 * m - 1) % 2 == 1;
    }
  }

  lemma {:induction false} ShiftRightBelow(x: nat, n: nat, k: nat)
    requires x < Pow2(n + k)
    ensures ShiftRight(x, n) < Pow2(k) && (ShiftRight(x, n) == 0 <==> x < Pow2(n))
    decreases n
  {
    if n > 0 {
      ShiftRightBelow(x / 2, n - 1, k);
    }
  }

  lemma {:induction false} ShiftLeftZero(x: nat, n: nat)
    ensures ShiftLeft(x, n) == 0 <==> x == 0
    decreases n
  {
    if n > 0 {
      ShiftLeftZero(x, n - 1);
    }
  }

  /** Ones from bit n up to bit n + k, against a number with n + k bits: is any bit from n up set? */
  lemma HighBitsTest(x: nat, n: nat, k: nat)
    requires x < Pow2(n + k)
    ensures And(ShiftLeft(Pow2(k) - 1, n), x) != 0 <==> x >= Pow2(n)
  {
    AndShifted(Pow2(k) - 1, x, n);
    ShiftRightBelow(x, n, k);
    AndOnes(ShiftRight(x, n), k);
    ShiftLeftZero(ShiftRight(x, n), n);
  }
}
