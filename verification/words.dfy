/** 64-bit words as natural numbers.

    The bitwise operations are defined digit by digit, so that masks and remainders can be
    related by induction; products and quotients are reduced to a few facts about
    remainders, which the proofs about flags and memory use instead of division. */
module Words {

  const TWO64: nat := 0x1_0000_0000_0000_0000

  type Word = w: nat | w < TWO64

  function Pow2(n: nat): (p: nat)
    ensures p >= 1
  {
    if n == 0 then 1 else 2 * Pow2(n - 1)
  }

  lemma {:induction false} Pow2Sum(a: nat, b: nat)
    ensures Pow2(a + b) == Pow2(a) * Pow2(b)
  {
    if a > 0 {
      Pow2Sum(a - 1, b);
      DoubleProduct(Pow2(a - 1), Pow2(b));
      assert Pow2(a + b) == 2 * Pow2(a - 1 + b) && Pow2(a) == 2 * Pow2(a - 1);
    }
  }

  lemma DoubleProduct(x: nat, y: nat)
    ensures 2 * (x * y) == (2 * x) * y
  {
  }

  lemma Pow2Byte(n: nat)
    ensures Pow2(n + 8) == 0x100 * Pow2(n)
  {
    assert Pow2(n + 2) == 4 * Pow2(n) && Pow2(n + 4) == 4 * Pow2(n + 2);
    assert Pow2(n + 6) == 4 * Pow2(n + 4);
  }

  lemma Pow2Is64()
    ensures Pow2(64) == TWO64 && Pow2(8) == 0x100 && Pow2(16) == 0x1_0000 && Pow2(32) == 0x1_0000_0000
  {
    Pow2Byte(0);
    Pow2Byte(8);
    Pow2Byte(16);
    Pow2Byte(24);
    Pow2Byte(32);
    Pow2Byte(40);
    Pow2Byte(48);
    Pow2Byte(56);
  }

  lemma {:induction false} Pow2Monotone(a: nat, b: nat)
    requires a <= b
    ensures Pow2(a) <= Pow2(b)
  {
    if a < b {
      Pow2Monotone(a, b - 1);
    }
  }

  lemma Pow2AtMost64(n: nat)
    requires n <= 64
    ensures Pow2(n) <= TWO64
  {
    Pow2Is64();
    Pow2Monotone(n, 64);
  }

  // ----- bitwise operations -----

  function And(x: nat, y: nat): (r: nat)
    ensures r <= x && r <= y
    decreases x
  {
    if x == 0 || y == 0 then 0
    else 2 * And(x / 2, y / 2) + (if x % 2 == 1 && y % 2 == 1 then 1 else 0)
  }

  function Or(x: nat, y: nat): nat
    decreases x + y
  {
    if x == 0 && y == 0 then 0
    else 2 * Or(x / 2, y / 2) + (if x % 2 == 1 || y % 2 == 1 then 1 else 0)
  }

  function Xor(x: nat, y: nat): nat
    decreases x + y
  {
    if x == 0 && y == 0 then 0
    else 2 * Xor(x / 2, y / 2) + (if x % 2 != y % 2 then 1 else 0)
  }

  lemma {:induction false} OrXorBelow(x: nat, y: nat, n: nat)
    requires x < Pow2(n) && y < Pow2(n)
    ensures Or(x, y) < Pow2(n) && Xor(x, y) < Pow2(n)
  {
    if n > 0 && (x > 0 || y > 0) {
      OrXorBelow(x / 2, y / 2, n - 1);
    }
  }

  lemma {:induction false} AndCommutes(x: nat, y: nat)
    ensures And(x, y) == And(y, x)
  {
    if x != 0 && y != 0 {
      AndCommutes(x / 2, y / 2);
    }
  }

  lemma {:induction false} OrZero(x: nat)
    ensures Or(x, 0) == x
  {
    if x != 0 {
      OrZero(x / 2);
    }
  }

  /** Masking with n ones is the remainder modulo 2^n. */
  lemma {:induction false} AndOnes(x: nat, n: nat)
    ensures And(x, Pow2(n) - 1) == x % Pow2(n)
    decreases n
  {
    if n == 0 {
    } else if x == 0 {
      ModuloUnique(0, Pow2(n), 0, 0);
    } else {
      AndOnes(x / 2, n - 1);
      AndOnesStep(x, Pow2(n - 1));
    }
  }

  lemma AndOnesStep(x: nat, m: nat)
    requires m > 0 && x > 0 && And(x / 2, m - 1) == x / 2 % m
    ensures And(x, 2 * m - 1) == x % (2 * m)
  {
    AndOdd(x, m);
    HalfModulo(x, m);
  }

  lemma AndOdd(x: nat, m: nat)
    requires m > 0 && x > 0
    ensures And(x, 2 * m - 1) == 2 * And(x / 2, m - 1) + x % 2
  {
    assert (2 * m - 1) / 2 == m - 1 && (2 * m - 1) % 2 == 1;
  }

  lemma HalfModulo(x: nat, m: nat)
    requires m > 0
    ensures x % (2 * m) == 2 * (x / 2 % m) + x % 2
  {
    var q, r := x / 2 / m, x / 2 % m;
    assert x / 2 == m * q + r;
    MulScale(2, m, q);
    ModuloUnique(x, 2 * m, q, 2 * r + x % 2);
  }

  lemma MulScale(c: int, m: int, q: int)
    ensures (c * m) * q == c * (m * q)
  {
  }

  lemma MulSpread(m: int, p: int, q: int)
    ensures m * (p + q) == m * p + m * q
  {
  }

  lemma MulAtLeast(m: int, k: int)
    requires m > 0 && k >= 1
    ensures m * k >= m
  {
    MulSpread(m, k - 1, 1);
  }

  lemma RemainderBelow(x: nat, m: nat)
    requires m > 0
    ensures 0 <= x % m < m && x % m <= x
  {
    if x < m {
      ModuloUnique(x, m, 0, x);
    }
  }

  /** A quotient and remainder in range are the quotient and the remainder. */
  lemma ModuloUnique(x: int, m: int, q: int, r: int)
    requires m > 0 && x == m * q + r && 0 <= r < m
    ensures x % m == r && x / m == q
  {
    var p, t := x / m, x % m;
    assert x == m * p + t && 0 <= t < m;
    SameQuotient(m, p, t, q, r);
  }

  lemma SameQuotient(m: int, p: int, t: int, q: int, r: int)
    requires m > 0 && m * p + t == m * q + r && 0 <= t < m && 0 <= r < m
    ensures p == q && t == r
  {
    if p < q {
      MulSpread(m, p, q - p);
      MulAtLeast(m, q - p);
    } else if q < p {
      MulSpread(m, q, p - q);
      MulAtLeast(m, p - q);
    }
  }

  // ----- word arithmetic -----

  function Add(x: nat, y: nat): Word
  {
    (x + y) % TWO64
  }

  /** x - y with wrap-around. */
  function Sub(x: Word, y: Word): Word
  {
    if y <= x then x - y else x - y + TWO64
  }

  function Mul(x: nat, y: nat): Word
  {
    MulNat(x, y) % TWO64
  }

  function MulNat(x: nat, y: nat): nat
  {
    x * y
  }

  function Shl(x: Word, n: nat): Word
  {
    if n == 0 then x else 2 * Shl(x, n - 1) % TWO64
  }

  function Shr(x: nat, n: nat): (r: nat)
    ensures r <= x
  {
    if n == 0 then x else Shr(x / 2, n - 1)
  }

  lemma {:induction false} ShlIsProduct(x: Word, n: nat)
    ensures Shl(x, n) == MulNat(x, Pow2(n)) % TWO64
  {
    if n > 0 {
      ShlIsProduct(x, n - 1);
      var p := MulNat(x, Pow2(n - 1));
      assert MulNat(x, Pow2(n)) == p + p;
      AddModulo(p, p, TWO64);
    }
  }

  lemma {:induction false} ShrIsQuotient(x: nat, n: nat)
    ensures Shr(x, n) == x / Pow2(n)
  {
    if n > 0 {
      ShrIsQuotient(x / 2, n - 1);
      HalfQuotient(x, Pow2(n - 1));
    }
  }

  lemma HalfQuotient(x: nat, m: nat)
    requires m > 0
    ensures x / (2 * m) == x / 2 / m
  {
    var q, r := x / 2 / m, x / 2 % m;
    assert x / 2 == m * q + r;
    MulScale(2, m, q);
    ModuloUnique(x, 2 * m, q, 2 * r + x % 2);
  }

  function AndW(x: Word, y: Word): Word
  {
    And(x, y)
  }

  function OrW(x: Word, y: Word): Word
  {
    Pow2Is64();
    OrXorBelow(x, y, 64);
    Or(x, y)
  }

  function XorW(x: Word, y: Word): Word
  {
    Pow2Is64();
    OrXorBelow(x, y, 64);
    Xor(x, y)
  }

  // ----- remainders -----

  /** Reducing modulo 2^64 first does not change a remainder modulo a smaller power. */
  lemma ReduceFirst(x: nat, n: nat)
    requires n <= 64
    ensures x % TWO64 % Pow2(n) == x % Pow2(n)
  {
    Pow2Is64();
    Pow2Sum(n, 64 - n);
    ReduceTwice(x, Pow2(n), Pow2(64 - n));
  }

  lemma ReduceTwice(x: int, m: int, k: int)
    requires m > 0 && k > 0 && m * k > 0
    ensures x % (m * k) % m == x % m
  {
    var q, r := x / (m * k), x % (m * k);
    assert x == (m * k) * q + r;
    assert (m * k) * q == m * (k * q);
    ModuloShift(r, m, k * q);
  }

  /** Multiples of the modulus do not change a remainder. */
  lemma ModuloShift(x: int, m: int, k: int)
    requires m > 0
    ensures (x + m * k) % m == x % m
  {
    assert x == m * (x / m) + x % m;
    assert x + m * k == m * (x / m + k) + x % m by {
      assert m * (x / m + k) == m * (x / m) + m * k;
    }
    ModuloUnique(x + m * k, m, x / m + k, x % m);
  }

  lemma AddModulo(x: int, y: int, m: int)
    requires m > 0
    ensures (x + y) % m == (x % m + y % m) % m
  {
    var k := x / m + y / m;
    assert x + y == x % m + y % m + m * k by {
      assert x == m * (x / m) + x % m && y == m * (y / m) + y % m;
      assert m * k == m * (x / m) + m * (y / m);
    }
    ModuloShift(x % m + y % m, m, k);
  }

  /** A remainder modulo 2h is one modulo h plus the bit above. */
  lemma BitAbove(x: nat, h: nat)
    requires h > 0
    ensures x % (2 * h) == x % h + (if x / h % 2 == 1 then h else 0)
  {
    var q := x / h;
    var p, b := q / 2, q % 2;
    MulSpread(h, 2 * p, b);
    BitAboveSum(x, h, p, b, x % h);
  }

  lemma BitAboveSum(x: nat, h: nat, p: nat, b: nat, r: nat)
    requires b < 2 && r < h && x == h * (2 * p) + h * b + r
    ensures x % (2 * h) == r + (if b == 1 then h else 0)
  {
    MulScale(2, h, p);
    assert h * (2 * p) == 2 * (h * p);
    ModuloUnique(x, 2 * h, p, r + (if b == 1 then h else 0));
  }

  // ----- bits -----

  function BitAt(x: nat, i: nat): bool
  {
    x / Pow2(i) % 2 == 1
  }

  lemma BitOfHalf(x: nat, i: nat)
    ensures BitAt(x, 0) <==> x % 2 == 1
    ensures i > 0 ==> BitAt(x, i) == BitAt(x / 2, i - 1)
  {
    if i > 0 {
      HalfQuotient(x, Pow2(i - 1));
    }
  }

  lemma {:induction false} NoBits(i: nat)
    ensures !BitAt(0, i)
  {
    BitOfHalf(0, i);
    if i > 0 {
      NoBits(i - 1);
    }
  }

  lemma {:induction false} BitOfAnd(x: nat, y: nat, i: nat)
    ensures BitAt(And(x, y), i) <==> BitAt(x, i) && BitAt(y, i)
    decreases i
  {
    BitOfHalf(x, i);
    BitOfHalf(y, i);
    BitOfHalf(And(x, y), i);
    NoBits(i);
    if x > 0 && y > 0 && i > 0 {
      BitOfAnd(x / 2, y / 2, i - 1);
    }
  }

  lemma {:induction false} BitOfOr(x: nat, y: nat, i: nat)
    ensures BitAt(Or(x, y), i) <==> BitAt(x, i) || BitAt(y, i)
    decreases i
  {
    BitOfHalf(x, i);
    BitOfHalf(y, i);
    BitOfHalf(Or(x, y), i);
    NoBits(i);
    if x + y > 0 && i > 0 {
      BitOfOr(x / 2, y / 2, i - 1);
    }
  }

  lemma {:induction false} BitOfXor(x: nat, y: nat, i: nat)
    ensures BitAt(Xor(x, y), i) <==> BitAt(x, i) != BitAt(y, i)
    decreases i
  {
    BitOfHalf(x, i);
    BitOfHalf(y, i);
    BitOfHalf(Xor(x, y), i);
    NoBits(i);
    if x + y > 0 && i > 0 {
      BitOfXor(x / 2, y / 2, i - 1);
    }
  }

  ghost predicate SameBits(x: nat, y: nat)
  {
    forall i: nat :: BitAt(x, i) == BitAt(y, i)
  }

  lemma {:induction false} SameBitsSame(x: nat, y: nat)
    requires SameBits(x, y)
    ensures x == y
    decreases x + y
  {
    BitOfHalf(x, 0);
    BitOfHalf(y, 0);
    assert BitAt(x, 0) == BitAt(y, 0);
    if x + y > 0 {
      forall i: nat
        ensures BitAt(x / 2, i) == BitAt(y / 2, i)
      {
        BitOfHalf(x, i + 1);
        BitOfHalf(y, i + 1);
        assert BitAt(x, i + 1) == BitAt(y, i + 1);
      }
      SameBitsSame(x / 2, y / 2);
    }
  }
}
