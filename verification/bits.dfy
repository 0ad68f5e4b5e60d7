/**
  Bit-level arithmetic on natural numbers: powers of two and the bitwise
  OR / AND of two naturals, defined one binary digit at a time from the least
  significant end. The JavaScript operators of module Js are built on these.
 */
module Bits {

  /** 2^k */
  function Pow2(k: nat): (r: nat)
    ensures r >= 1
  {
    if k == 0 then 1 else 2 * Pow2(k - 1)
  }

  lemma {:induction false} Pow2Add(j: nat, k: nat)
    ensures Pow2(j + k) == Pow2(j) * Pow2(k)
    decreases k
  {
    if k > 0 {
      Pow2Add(j, k - 1);
      assert Pow2(j + k) == 2 * Pow2(j + k - 1);
      assert Pow2(j) * Pow2(k) == Pow2(j) * (2 * Pow2(k - 1));
    }
  }

  /** The powers of two the shift amounts of the handlers produce. */
  lemma Pow2Constants()
    ensures Pow2(2) == 4 && Pow2(8) == 0x100 && Pow2(16) == 0x1_0000
    ensures Pow2(24) == 0x100_0000 && Pow2(32) == 0x1_0000_0000
  {
    assert Pow2(4) == 16;
    assert Pow2(8) == 0x100;
    Pow2Add(8, 8);
    Pow2Add(16, 8);
    Pow2Add(16, 16);
  }

  /** Bitwise OR: binary digit i of the result is set iff it is set in a or in b. */
  function Or(a: nat, b: nat): nat
    decreases a + b
  {
    if a == 0 then b
    else if b == 0 then a
    else 2 * Or(a / 2, b / 2) + (if a % 2 == 1 || b % 2 == 1 then 1 else 0)
  }

  /** Bitwise AND: binary digit i of the result is set iff it is set in both a and b. */
  function And(a: nat, b: nat): nat
    decreases a + b
  {
    if a == 0 || b == 0 then 0
    else 2 * And(a / 2, b / 2) + (if a % 2 == 1 && b % 2 == 1 then 1 else 0)
  }

  /** Digit i (counting from 0 at the least significant end) of n. */
  function Digit(n: nat, i: nat): (d: nat)
    ensures d < 2
  {
    (n / Pow2(i)) % 2
  }

  /** OR-ing a value into the free low bits of a shifted value is addition. */
  lemma {:induction false} OrDisjoint(a: nat, b: nat, k: nat)
    requires b < Pow2(k)
    ensures Or(a * Pow2(k), b) == a * Pow2(k) + b
    decreases k
  {
    var hi := a * Pow2(k);
    if k == 0 {
      assert b == 0;
    } else if hi == 0 || b == 0 {
    } else {
      var half := a * Pow2(k - 1);
      assert hi == 2 * half;
      assert hi / 2 == half && hi % 2 == 0;
      OrDisjoint(a, b / 2, k - 1);
      assert Or(hi, b) == 2 * Or(half, b / 2) + b % 2;
    }
  }

  /** OR of two k-bit values is a k-bit value. */
  lemma {:induction false} OrBelow(a: nat, b: nat, k: nat)
    requires a < Pow2(k) && b < Pow2(k)
    ensures Or(a, b) < Pow2(k)
    decreases k
  {
    if a != 0 && b != 0 {
      assert k > 0;
      OrBelow(a / 2, b / 2, k - 1);
    }
  }

  /** AND never exceeds its first operand. */
  lemma {:induction false} AndAtMost(a: nat, b: nat)
    ensures And(a, b) <= a
    decreases a + b
  {
    if a != 0 && b != 0 {
      AndAtMost(a / 2, b / 2);
    }
  }

  lemma DivModByTwo(a: nat, p: nat)
    requires p >= 1
    ensures a % (2 * p) == 2 * ((a / 2) % p) + a % 2
  {
    var q := a / 2;
    var t := q % p;
    var s := q / p;
    assert q == p * s + t;
    assert a == 2 * q + a % 2;
    assert a == (2 * p) * s + (2 * t + a % 2);
    assert 0 <= 2 * t + a % 2 < 2 * p;
    ModUnique(a, 2 * p, s, 2 * t + a % 2);
  }

  lemma ModUnique(a: int, d: int, q: int, r: int)
    requires d > 0 && a == d * q + r && 0 <= r < d
    ensures a % d == r && a / d == q
  {
    var q', r' := a / d, a % d;
    assert d * q' + r' == d * q + r;
    var e := q - q';
    assert d * e == r' - r by {
      assert d * e == d * q - d * q';
    }
    if e >= 1 {
      MulAtLeast(d, e);
    } else if e <= -1 {
      MulAtLeast(d, -e);
    }
  }

  /** Dividing by a positive d rounds down: the quotient brackets n between two multiples of d. */
  lemma FloorBounds(n: int, d: int)
    requires d > 0
    ensures (n / d) * d <= n < (n / d + 1) * d
    ensures 0 <= n ==> 0 <= n / d <= n
    ensures n < 0 ==> n <= n / d < 0
  {
    var q := n / d;
    var p := q * d;
    assert n == p + n % d;
    assert (q + 1) * d == p + d;
    if q >= 1 {
      MulAtLeast(q, d);
    } else if q <= -1 {
      var e := -q;
      MulAtLeast(d, e);
      assert p == -(d * e);
      if q <= -2 {
        MulAtLeast(e - 1, d);
        assert (q + 1) * d == -((e - 1) * d);
      }
    }
  }

  lemma MulAtLeast(d: int, e: int)
    requires d > 0 && e >= 1
    ensures d * e >= d
  {
    assert d * e == d * (e - 1) + d;
    assert d * (e - 1) >= 0;
  }

  /** AND with a mask of k one-bits keeps exactly the low k bits. */
  lemma {:induction false} AndLowMask(a: nat, k: nat)
    ensures And(a, Pow2(k) - 1) == a % Pow2(k)
    decreases k
  {
    var m := Pow2(k) - 1;
    if k == 0 {
    } else if a == 0 {
    } else {
      assert m % 2 == 1 && m / 2 == Pow2(k - 1) - 1;
      AndLowMask(a / 2, k - 1);
      assert And(a, m) == 2 * ((a / 2) % Pow2(k - 1)) + a % 2;
      DivModByTwo(a, Pow2(k - 1));
    }
  }

  /** Digit i of a OR b is set iff digit i is set in a or in b. */
  lemma {:induction false} OrDigit(a: nat, b: nat, i: nat)
    ensures Digit(Or(a, b), i) == 1 <==> Digit(a, i) == 1 || Digit(b, i) == 1
    decreases i
  {
    if a == 0 || b == 0 {
      ZeroDigit(i);
    } else {
      var bit := if a % 2 == 1 || b % 2 == 1 then 1 else 0;
      var rest := Or(a / 2, b / 2);
      assert Or(a, b) == 2 * rest + bit;
      DigitOfTwice(rest, bit, i);
      if i == 0 {
        LowDigit(a);
        LowDigit(b);
      } else {
        OrDigit(a / 2, b / 2, i - 1);
        DigitOfHalf(a, i);
        DigitOfHalf(b, i);
      }
    }
  }

  /** Digit i of a AND b is set iff digit i is set in both a and b. */
  lemma {:induction false} AndDigit(a: nat, b: nat, i: nat)
    ensures Digit(And(a, b), i) == 1 <==> Digit(a, i) == 1 && Digit(b, i) == 1
    decreases i
  {
    if a == 0 || b == 0 {
      ZeroDigit(i);
    } else {
      var bit := if a % 2 == 1 && b % 2 == 1 then 1 else 0;
      var rest := And(a / 2, b / 2);
      assert And(a, b) == 2 * rest + bit;
      DigitOfTwice(rest, bit, i);
      if i == 0 {
        LowDigit(a);
        LowDigit(b);
      } else {
        AndDigit(a / 2, b / 2, i - 1);
        DigitOfHalf(a, i);
        DigitOfHalf(b, i);
      }
    }
  }

  lemma DigitOfTwice(x: nat, bit: nat, i: nat)
    requires bit < 2
    ensures i == 0 ==> Digit(2 * x + bit, i) == bit
    ensures i > 0 ==> Digit(2 * x + bit, i) == Digit(x, i - 1)
  {
    if i == 0 {
      LowDigit(2 * x + bit);
    } else {
      DigitOfHalf(2 * x + bit, i);
      assert (2 * x + bit) / 2 == x;
    }
  }

  lemma ZeroDigit(i: nat)
    ensures Digit(0, i) == 0
  {
  }

  lemma LowDigit(n: nat)
    ensures Digit(n, 0) == n % 2
  {
  }

  lemma DigitOfHalf(n: nat, i: nat)
    requires i > 0
    ensures Digit(n, i) == Digit(n / 2, i - 1)
  {
    assert Pow2(i) == 2 * Pow2(i - 1);
    DivDiv(n, 2, Pow2(i - 1));
  }

  lemma DivDiv(n: nat, a: nat, b: nat)
    requires a > 0 && b > 0
    ensures n / (a * b) == (n / a) / b
  {
    var q := (n / a) / b;
    var r := (n / a) % b;
    assert n / a == b * q + r;
    assert n == a * (n / a) + n % a;
    assert n == (a * b) * q + (a * r + n % a);
    assert a * r + n % a <= a * (b - 1) + (a - 1);
    ModUnique(n, a * b, q, a * r + n % a);
  }
}
