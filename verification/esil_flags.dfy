/** ESIL's internal flags, recomputed on demand, against the arithmetic they stand for. */
module EsilFlags {
  import opened Words

  /** The number whose bits + 1 least significant bits are set. */
  function Genmask(bits: nat): Word
    requires bits < 64
  {
    var m := Sub(Shl(2, bits), 1);
    if m == 0 then TWO64 - 1 else m
  }

  function CarryCheck(prev: Word, cur: Word, bit: nat): bool
    requires bit < 64
  {
    And(cur, Genmask(bit)) < And(prev, Genmask(bit))
  }

  /** The low six bits. */
  function Low6(x: nat): nat
  {
    x % 64
  }

  /** The program takes them with the mask 0x3f. */
  lemma Low6IsMask(x: nat)
    ensures Low6(x) == And(x, 0x3f)
  {
    assert Pow2(2) == 4 && Pow2(4) == 16 && Pow2(6) == 64;
    AndOnes(x, 6);
  }

  /** The bit that a borrow check looks at: one below the named one, modulo 64. */
  function BorrowBit(bit: nat): (b: nat)
    ensures b < 64
    ensures 1 <= bit <= 64 ==> b == bit - 1
  {
    Low6(Low6(bit) + 0x3f)
  }

  function BorrowCheck(prev: Word, cur: Word, bit: nat): bool
  {
    And(prev, Genmask(BorrowBit(bit))) < And(cur, Genmask(BorrowBit(bit)))
  }

  function SignCheck(cur: Word, lastsz: nat): bool
    requires lastsz <= 64
  {
    lastsz != 0 && Shr(cur, lastsz - 1) % 2 == 1
  }

  function OverflowCheck(prev: Word, cur: Word, lastsz: nat): bool
    requires lastsz <= 64
  {
    lastsz >= 2 && CarryCheck(prev, cur, lastsz - 1) != CarryCheck(prev, cur, lastsz - 2)
  }

  // ----- masks -----

  lemma GenmaskIsOnes(bits: nat)
    requires bits < 64
    ensures Genmask(bits) == Pow2(bits + 1) - 1
  {
    ShlIsProduct(2, bits);
    assert MulNat(2, Pow2(bits)) == Pow2(bits + 1);
    Pow2AtMost64(bits + 1);
    if Pow2(bits + 1) < TWO64 {
      ModuloUnique(Pow2(bits + 1), TWO64, 0, Pow2(bits + 1));
    } else {
      ModuloUnique(TWO64, TWO64, 1, 0);
    }
    Pow2Monotone(1, bits + 1);
  }

  /** The checks compare remainders. */
  lemma CarryCompares(prev: Word, cur: Word, bit: nat)
    requires bit < 64
    ensures CarryCheck(prev, cur, bit) <==> cur % Pow2(bit + 1) < prev % Pow2(bit + 1)
  {
    GenmaskIsOnes(bit);
    AndOnes(cur, bit + 1);
    AndOnes(prev, bit + 1);
  }

  lemma BorrowCompares(prev: Word, cur: Word, bit: nat)
    ensures var n := BorrowBit(bit) + 1; BorrowCheck(prev, cur, bit) <==> prev % Pow2(n) < cur % Pow2(n)
  {
    var n := BorrowBit(bit) + 1;
    GenmaskIsOnes(n - 1);
    AndOnes(cur, n);
    AndOnes(prev, n);
  }

  // ----- addition -----

  lemma AddRemainder(d: Word, s: Word, n: nat)
    requires n <= 64
    ensures var m, x, y := Pow2(n), d % Pow2(n), s % Pow2(n);
            Add(d, s) % m == if x + y < m then x + y else x + y - m
  {
    var m, x, y := Pow2(n), d % Pow2(n), s % Pow2(n);
    ReduceFirst(d + s, n);
    AddModulo(d, s, m);
    if x + y < m {
      ModuloUnique(x + y, m, 0, x + y);
    } else {
      ModuloUnique(x + y, m, 1, x + y - m);
    }
  }

  /** After an addition the carry check at bit k is the carry out of bit k. */
  lemma CarryAfterAdd(d: Word, s: Word, k: nat)
    requires k < 64
    ensures CarryCheck(d, Add(d, s), k) <==> d % Pow2(k + 1) + s % Pow2(k + 1) >= Pow2(k + 1)
  {
    CarryCompares(d, Add(d, s), k);
    AddRemainder(d, s, k + 1);
  }

  // ----- subtraction -----

  lemma SubRemainder(d: Word, s: Word, n: nat)
    requires n <= 64
    ensures var m, x, y := Pow2(n), d % Pow2(n), s % Pow2(n);
            Sub(d, s) % m == if y <= x then x - y else x - y + m
  {
    var m, x, y := Pow2(n), d % Pow2(n), s % Pow2(n);
    AddRemainder(Sub(d, s), s, n);
    assert Add(Sub(d, s), s) == d by {
      if s <= d {
        ModuloUnique(d, TWO64, 0, d);
      } else {
        ModuloUnique(d + TWO64, TWO64, 1, d);
      }
    }
  }

  /** After a subtraction the borrow check at bit b holds exactly when the low b bits
      of the old value are below those of the subtrahend. The mask of the program makes
      this hold of bit 0 with 64 bits, and of bits above 64 with their remainder. */
  lemma BorrowAfterSub(d: Word, s: Word, b: nat)
    ensures var n := BorrowBit(b) + 1; BorrowCheck(d, Sub(d, s), b) <==> d % Pow2(n) < s % Pow2(n)
    ensures 1 <= b <= 64 ==> (BorrowCheck(d, Sub(d, s), b) <==> d % Pow2(b) < s % Pow2(b))
    ensures b == 0 ==> (BorrowCheck(d, Sub(d, s), b) <==> d < s)
  {
    hide Sub, BorrowCheck, Pow2;
    BorrowCompares(d, Sub(d, s), b);
    SubRemainder(d, s, BorrowBit(b) + 1);
    if b == 0 {
      assert BorrowBit(0) + 1 == 64;
      WholeWord(d);
      WholeWord(s);
    }
  }

  lemma WholeWord(x: Word)
    ensures x % Pow2(64) == x
  {
    Pow2Is64();
    ModuloUnique(x, Pow2(64), 0, x);
  }

  // ----- signed overflow -----

  /** The low n bits as a two's complement number. */
  function Signed(x: Word, n: nat): int
    requires 1 <= n
  {
    var r := x % Pow2(n);
    if r < Pow2(n - 1) then r else r - Pow2(n)
  }

  predicate FitsSigned(v: int, n: nat)
    requires 1 <= n
  {
    -(Pow2(n - 1) as int) <= v < Pow2(n - 1)
  }

  lemma TopBit(x: nat, n: nat)
    requires 1 <= n
    ensures x % Pow2(n) == x % Pow2(n - 1) + (if x / Pow2(n - 1) % 2 == 1 then Pow2(n - 1) else 0)
  {
    BitAbove(x, Pow2(n - 1));
  }

  /** The sign check is the sign of the low lastsz bits. */
  lemma SignIsNegative(x: Word, n: nat)
    requires 1 <= n <= 64
    ensures SignCheck(x, n) <==> Signed(x, n) < 0
  {
    ShrIsQuotient(x, n - 1);
    TopBit(x, n);
  }

  /** After an addition the overflow check holds exactly when the signed n-bit sum does
      not fit in n bits. */
  lemma OverflowAfterAdd(d: Word, s: Word, n: nat)
    requires 2 <= n <= 64
    ensures OverflowCheck(d, Add(d, s), n) <==> !FitsSigned(Signed(d, n) + Signed(s, n), n)
  {
    CarryAfterAdd(d, s, n - 1);
    CarryAfterAdd(d, s, n - 2);
    TopBit(d, n);
    TopBit(s, n);
  }

  /** After a subtraction the same check is right for every subtrahend but one: it
      agrees with signed overflow exactly when the subtrahend is not the least n-bit
      number. */
  lemma OverflowAfterSub(d: Word, s: Word, n: nat)
    requires 2 <= n <= 64
    ensures (OverflowCheck(d, Sub(d, s), n) <==> !FitsSigned(Signed(d, n) - Signed(s, n), n))
       <==> s % Pow2(n) != Pow2(n - 1)
  {
    CarryCompares(d, Sub(d, s), n - 1);
    CarryCompares(d, Sub(d, s), n - 2);
    SubRemainder(d, s, n);
    SubRemainder(d, s, n - 1);
    TopBit(d, n);
    TopBit(s, n);
  }

  /** Zero minus the least n-bit number overflows, and the check does not see it. */
  lemma OverflowMissed(n: nat)
    requires 2 <= n <= 64
    ensures Pow2(n - 1) < TWO64
    ensures !OverflowCheck(0, Sub(0, Pow2(n - 1)), n)
    ensures !FitsSigned(Signed(0, n) - Signed(Pow2(n - 1), n), n)
  {
    var least := Pow2(n - 1);
    Pow2AtMost64(n);
    ModuloUnique(0, Pow2(n), 0, 0);
    ModuloUnique(least, Pow2(n), 0, least);
    OverflowAfterSub(0, least, n);
  }
}
