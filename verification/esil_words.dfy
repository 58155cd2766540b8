/** What the words of ESIL do, apart from how the machine computes it: results of
    arithmetic by their products, remainders and bits, and the state that each word
    leaves. */
module EsilWords {
  import opened Words
  import opened Wrappers
  import opened EsilFlags
  import opened EsilMachine

  // ----- arithmetic -----

  /** v is what remains of x in 64 bits. */
  ghost predicate Wraps(x: nat, v: Word)
  {
    exists k: nat :: WrapsBy(x, v, k)
  }

  predicate WrapsBy(x: nat, v: Word, k: nat)
  {
    x == k * 0x1_0000_0000_0000_0000 + v
  }

  /** Division of d by s gives q and leaves r. */
  predicate Division(d: nat, s: nat, q: nat, r: nat)
  {
    d == q * s + r && r < s
  }

  /** What an operator's result v is, for the operands d and s. */
  ghost predicate Means(b: BinOp, d: Word, s: Word, v: Word)
  {
    match b
    case OpAdd => Wraps(d + s, v)
    case OpSub => Wraps(v + s, d)
    case OpMul => Wraps(d * s, v)
    case OpDiv => exists r: nat :: Division(d, s, v, r)
    case OpMod => exists q: nat :: Division(d, s, q, v)
    case OpAnd => forall i: nat :: BitAt(v, i) <==> BitAt(d, i) && BitAt(s, i)
    case OpOr => forall i: nat :: BitAt(v, i) <==> BitAt(d, i) || BitAt(s, i)
    case OpXor => forall i: nat :: BitAt(v, i) <==> BitAt(d, i) != BitAt(s, i)
    case OpShl => Wraps(d * Pow2(s % 64), v)
    case OpShr => exists r: nat :: Division(d, Pow2(s % 64), v, r)
  }

  lemma WrapsModulo(x: nat, v: Word)
    ensures Wraps(x, v) <==> v == x % TWO64
  {
    if v == x % TWO64 {
      assert WrapsBy(x, v, x / TWO64);
    }
    if Wraps(x, v) {
      var k: nat :| WrapsBy(x, v, k);
      ModuloUnique(x, TWO64, k, v);
    }
  }

  lemma DivisionUnique(d: nat, s: nat, q: nat, r: nat)
    requires s > 0
    ensures Division(d, s, q, r) <==> q == d / s && r == d % s
  {
    if Division(d, s, q, r) {
      assert s * q == q * s;
      ModuloUnique(d, s, q, r);
    }
    if q == d / s && r == d % s {
      assert d == s * q + r && s * q == q * s;
    }
  }

  lemma BitsAre(b: BinOp, d: Word, s: Word, v: Word)
    requires b == OpAnd || b == OpOr || b == OpXor
    ensures Means(b, d, s, v) <==> v == Apply(b, d, s)
  {
    var r := Apply(b, d, s);
    forall i: nat
      ensures match b
              case OpAnd => BitAt(r, i) <==> BitAt(d, i) && BitAt(s, i)
              case OpOr => BitAt(r, i) <==> BitAt(d, i) || BitAt(s, i)
              case _ => BitAt(r, i) <==> BitAt(d, i) != BitAt(s, i)
    {
      BitOfAnd(d, s, i);
      BitOfOr(d, s, i);
      BitOfXor(d, s, i);
    }
    if Means(b, d, s, v) {
      SameBitsSame(v, r);
    }
  }

  /** The machine's arithmetic is the one result with that meaning. */
  lemma ApplyMeans(b: BinOp, d: Word, s: Word, v: Word)
    requires Divides(b) ==> s != 0
    ensures v == Apply(b, d, s) <==> Means(b, d, s, v)
  {
    match b
    case OpAdd => WrapsModulo(d + s, v);
    case OpSub => SubWraps(d, s, v);
    case OpMul => WrapsModulo(d * s, v);
    case OpDiv => QuotientIs(d, s, v);
    case OpMod => RemainderIs(d, s, v);
    case OpAnd => BitsAre(b, d, s, v);
    case OpOr => BitsAre(b, d, s, v);
    case OpXor => BitsAre(b, d, s, v);
    case OpShl =>
      ShlIsProduct(d, s % 64);
      WrapsModulo(d * Pow2(s % 64), v);
    case OpShr =>
      ShrIsQuotient(d, s % 64);
      QuotientIs(d, Pow2(s % 64), v);
  }

  lemma SubWraps(d: Word, s: Word, v: Word)
    ensures Wraps(v + s, d) <==> v == Sub(d, s)
  {
    WrapsModulo(v + s, d);
    if v + s < TWO64 {
      ModuloUnique(v + s, TWO64, 0, v + s);
    } else {
      ModuloUnique(v + s, TWO64, 1, v + s - TWO64);
    }
  }

  lemma QuotientIs(d: nat, s: nat, v: nat)
    requires s > 0
    ensures (exists r: nat :: Division(d, s, v, r)) <==> v == d / s
  {
    forall r: nat
      ensures Division(d, s, v, r) <==> v == d / s && r == d % s
    {
      DivisionUnique(d, s, v, r);
    }
    if v == d / s {
      assert Division(d, s, v, d % s);
    }
  }

  lemma RemainderIs(d: nat, s: nat, v: nat)
    requires s > 0
    ensures (exists q: nat :: Division(d, s, q, v)) <==> v == d % s
  {
    forall q: nat
      ensures Division(d, s, q, v) <==> q == d / s && v == d % s
    {
      DivisionUnique(d, s, q, v);
    }
    if v == d % s {
      assert Division(d, s, d / s, v);
    }
  }

  // ----- words that take two operands -----

  lemma TopTwo(m: Machine, rest: seq<Entry>, src: Entry, dst: Entry)
    requires Valid(m) && m.stack == rest + [src, dst]
    ensures Top(m) == Some(dst) && Pop(m) == m.(stack := rest + [src])
    ensures Top(Pop(m)) == Some(src) && Pop(Pop(m)) == m.(stack := rest)
    ensures forall e :: Value(Pop(m), e) == Value(m, e) && Value(Pop(Pop(m)), e) == Value(m, e)
  {
    assert m.stack[..|m.stack| - 1] == rest + [src];
    assert (rest + [src])[..|rest|] == rest;
    forall e
      ensures Value(Pop(m), e) == Value(m, e) && Value(Pop(Pop(m)), e) == Value(m, e)
    {
      ValueIgnoresStack(m, Pop(m), e);
      ValueIgnoresStack(m, Pop(Pop(m)), e);
    }
  }

  lemma TopOne(m: Machine, rest: seq<Entry>, e: Entry)
    requires Valid(m) && m.stack == rest + [e]
    ensures Top(m) == Some(e) && Pop(m) == m.(stack := rest) && |rest| < m.limit
    ensures forall x :: Value(Pop(m), x) == Value(m, x)
  {
    assert m.stack[..|rest|] == rest;
    forall x
      ensures Value(Pop(m), x) == Value(m, x)
    {
      ValueIgnoresStack(m, Pop(m), x);
    }
  }

  /** An operator replaces its operands by the result. */
  lemma BinaryEffect(m: Machine, rest: seq<Entry>, src: Entry, dst: Entry, b: BinOp)
    requires Valid(m) && m.stack == rest + [src, dst]
    ensures var o, d, s := Run(m, Binary(b)), Value(m, Some(dst)), Value(m, Some(src));
            if d.None? then o == Outcome(false, m.(stack := if b == OpSub then rest + [src] else rest))
            else if s.None? then o == Outcome(false, m.(stack := rest))
            else if (b == OpDiv || b == OpMod) && s.value == 0 then o == Outcome(true, m.(stack := rest, trap := DivByZero))
            else exists v: Word :: Means(b, d.value, s.value, v) && o == Outcome(true, m.(stack := rest + [Num(v)]))
  {
    hide Means;
    TopTwo(m, rest, src, dst);
    var d, s := Value(m, Some(dst)), Value(m, Some(src));
    if d.Some? && s.Some? && !(Divides(b) && s.value == 0) {
      ApplyMeans(b, d.value, s.value, Apply(b, d.value, s.value));
    }
  }

  /** What a register keeps of a value. */
  ghost predicate Kept(size: nat, v: Word, r: Word)
  {
    if size == 1 then r == (if v == 0 then 0 else 1) else exists k: nat :: Division(v, Pow2(size), k, r)
  }

  lemma FitKeeps(size: nat, v: Word)
    requires 1 <= size <= 64
    ensures Kept(size, v, Fit(v, size))
  {
    hide Division, Pow2;
    if size != 1 {
      RemainderIs(v, Pow2(size), v % Pow2(size));
    }
  }

  /** The value has come into the register of that name, and nothing else has changed. */
  ghost predicate Stored(m: Machine, r: string, v: Word, n: Machine)
    requires r in m.sizes
  {
    r in n.regs && Kept(m.sizes[r], v, n.regs[r]) && n == m.(regs := m.regs[r := n.regs[r]])
  }

  lemma WriteStores(m: Machine, r: string, v: Word)
    requires Valid(m) && r in m.regs
    ensures var o := WriteReg(m, Reg(r), v); o.ok && Stored(m, r, v, o.m)
  {
    FitKeeps(m.sizes[r], v);
  }

  /** Operators that assign: the register keeps of the result what fits, and operands and
      result are noted for the flags unless the source is a flag itself. */
  lemma UpdateEffect(m: Machine, n: Machine, src: Entry, r: string, b: BinOp)
    requires Valid(m) && m.stack == n.stack + [src, Reg(r)] && n == m.(stack := n.stack)
    ensures var o, s := Run(m, Update(b)), Value(m, Some(src));
            if r !in m.regs || s.None? then o == Outcome(false, n)
            else if (b == OpDiv || b == OpMod) && s.value == 0 then o == Outcome(true, n.(trap := DivByZero))
            else exists v: Word :: Means(b, m.regs[r], s.value, v) && o.ok && Stored(Noted(n, src, r, b, v), r, v, o.m)
  {
    hide Means, Stored, Apply, Run, UpdatedBy, Noted, Value, Valid;
    UpdateSteps(m, n, src, r, b);
    var o, s := Run(m, Update(b)), Value(m, Some(src));
    if r in m.regs && s.Some? && !(Divides(b) && s.value == 0) {
      UpdateStores(n, src, r, b, s.value, o.m);
    }
  }

  lemma UpdateStores(m: Machine, src: Entry, r: string, b: BinOp, s: Word, n: Machine)
    requires Valid(m) && r in m.regs && (Divides(b) ==> s != 0) && UpdatedBy(m, src, r, b, Apply(b, m.regs[r], s), n)
    ensures exists v: Word :: Means(b, m.regs[r], s, v) && Stored(Noted(m, src, r, b, v), r, v, n)
  {
    hide Means, Stored, Apply, WriteReg;
    var v := Apply(b, m.regs[r], s);
    ApplyMeans(b, m.regs[r], s, v);
    WriteStores(Noted(m, src, r, b, v), r, v);
  }

  /** Operands and result are noted. */
  function Noted(m: Machine, src: Entry, r: string, b: BinOp, v: Word): (n: Machine)
    requires r in m.regs && r in m.sizes
    ensures Valid(m) ==> Valid(n)
  {
    if src.Internal? && b != OpShl && b != OpShr then m else m.(prev := m.regs[r], cur := v, lastsz := m.sizes[r])
  }

  predicate UpdatedBy(m: Machine, src: Entry, r: string, b: BinOp, v: Word, n: Machine)
    requires Valid(m) && r in m.regs
  {
    n == WriteReg(Noted(m, src, r, b, v), Reg(r), v).m
  }

  lemma UpdateSteps(m: Machine, n: Machine, src: Entry, r: string, b: BinOp)
    requires Valid(m) && m.stack == n.stack + [src, Reg(r)] && n == m.(stack := n.stack)
    ensures Valid(n) && Value(n, Some(src)) == Value(m, Some(src))
    ensures var o, s := Run(m, Update(b)), Value(m, Some(src));
            if r !in m.regs || s.None? then o == Outcome(false, n)
            else if Divides(b) && s.value == 0 then o == Outcome(true, n.(trap := DivByZero))
            else o.ok && UpdatedBy(n, src, r, b, Apply(b, m.regs[r], s.value), o.m)
  {
    hide Apply, WriteReg;
    TopTwo(m, n.stack, src, Reg(r));
  }

  /** An assignment: the old value is noted, with the new one as it was before it was cut
      to the register's size. */
  lemma AssignEffect(m: Machine, rest: seq<Entry>, src: Entry, r: string)
    requires Valid(m) && m.stack == rest + [src, Reg(r)]
    ensures var o, s := Run(m, Assign), Value(m, Some(src));
            if r !in m.regs || s.None? then o == Outcome(false, m.(stack := rest))
            else o.ok && Stored(if src.Internal? then m.(stack := rest)
                                else m.(stack := rest, prev := m.regs[r], cur := s.value, lastsz := m.sizes[r]), r, s.value, o.m)
  {
    hide Kept;
    TopTwo(m, rest, src, Reg(r));
    if r in m.regs && Value(m, Some(src)).Some? {
      WriteStores(m.(stack := rest), r, Value(m, Some(src)).value);
    }
  }

  /** Assigning to a number is refused. */
  lemma NumbersAreNotAssigned(m: Machine, rest: seq<Entry>, src: Entry, n: Word, b: BinOp)
    requires Valid(m) && m.stack == rest + [src, Num(n)]
    ensures Run(m, Assign) == Outcome(false, m.(stack := rest)) == Run(m, Update(b))
  {
    TopTwo(m, rest, src, Num(n));
  }

  /** A comparison notes its left operand and the difference, with the size of the first
      register among the operands, and pushes whether they are the same. */
  lemma CompareEffect(m: Machine, rest: seq<Entry>, src: Entry, dst: Entry)
    requires Valid(m) && m.stack == rest + [src, dst]
    ensures var o, d, s := Run(m, Compare), Value(m, Some(dst)), Value(m, Some(src));
            if d.None? || s.None? then o == Outcome(false, m.(stack := rest))
            else o.ok && o.m.prev == d.value && Means(OpSub, d.value, s.value, o.m.cur)
                 && o.m.lastsz == (if dst.Reg? then m.sizes[dst.name] else if src.Reg? then m.sizes[src.name] else 64)
                 && o.m == m.(prev := o.m.prev, cur := o.m.cur, lastsz := o.m.lastsz,
                              stack := rest + [Num(if d.value == s.value then 1 else 0)])
  {
    hide Means;
    TopTwo(m, rest, src, dst);
    var d, s := Value(m, Some(dst)), Value(m, Some(src));
    if d.Some? && s.Some? {
      ApplyMeans(OpSub, d.value, s.value, Sub(d.value, s.value));
    }
  }

  // ----- words that take one operand -----

  /** Counting up or down. */
  lemma StepEffect(m: Machine, rest: seq<Entry>, e: Entry, up: bool)
    requires Valid(m) && m.stack == rest + [e]
    ensures var o, s := Run(m, if up then Inc else Dec), Value(m, Some(e));
            if s.None? then o == Outcome(false, m.(stack := rest))
            else exists v: Word :: Means(if up then OpAdd else OpSub, s.value, 1, v) && o == Outcome(true, m.(stack := rest + [Num(v)]))
  {
    hide Means;
    TopOne(m, rest, e);
    var b, s := if up then OpAdd else OpSub, Value(m, Some(e));
    if s.Some? {
      var v := Apply(b, s.value, 1);
      ApplyMeans(b, s.value, 1, v);
      assert Means(b, s.value, 1, v) && Run(m, if up then Inc else Dec) == Outcome(true, m.(stack := rest + [Num(v)]));
    }
  }

  lemma StepAssignEffect(m: Machine, rest: seq<Entry>, r: string, up: bool)
    requires Valid(m) && m.stack == rest + [Reg(r)]
    ensures var o := Run(m, if up then IncEq else DecEq);
            if r !in m.regs then o == Outcome(false, m.(stack := rest))
            else exists v: Word :: Means(if up then OpAdd else OpSub, m.regs[r], 1, v) && o.ok
                   && Stored(m.(stack := rest, prev := m.regs[r], cur := v, lastsz := m.sizes[r]), r, v, o.m)
  {
    hide Means, Kept, Apply, Fit;
    TopOne(m, rest, Reg(r));
    if r in m.regs {
      var b := if up then OpAdd else OpSub;
      var v := Apply(b, m.regs[r], 1);
      ApplyMeans(b, m.regs[r], 1, v);
      WriteStores(m.(stack := rest), r, v);
      assert Means(b, m.regs[r], 1, v) && Stored(Track(m.(stack := rest), m.regs[r], v, m.sizes[r]), r, v, Run(m, if up then IncEq else DecEq).m);
    }
  }

  /** Negation tells whether a value is zero. */
  lemma NotEffect(m: Machine, rest: seq<Entry>, e: Entry)
    requires Valid(m) && m.stack == rest + [e]
    ensures var s := Value(m, Some(e));
            && Run(m, Not) == (if s.None? then Outcome(false, m.(stack := rest))
                               else Outcome(true, m.(stack := rest + [Num(if s == Some(0) then 1 else 0)])))
            && (e.Reg? && s.Some? ==> Run(m, NotEq).ok && Stored(m.(stack := rest), e.name, if s == Some(0) then 1 else 0, Run(m, NotEq).m))
  {
    hide Kept;
    TopOne(m, rest, e);
    if e.Reg? && Value(m, Some(e)).Some? {
      WriteStores(m.(stack := rest), e.name, IsZero(m.regs[e.name]));
    }
  }

  // ----- words that rearrange the stack -----

  lemma StackEffects(m: Machine, rest: seq<Entry>, x: Entry, y: Entry)
    requires Valid(m) && m.stack == rest + [x, y]
    ensures Run(m, Swap) == Outcome(true, m.(stack := rest + [y, x]))
    ensures Run(m, Dup) == Outcome(|m.stack| < m.limit, if |m.stack| < m.limit then m.(stack := rest + [x, y, y]) else m)
    ensures Run(m, Drop) == Outcome(true, m.(stack := rest + [x])) && Run(m, Clear) == Outcome(true, m.(stack := []))
  {
    hide Valid;
    assert m.stack[..|m.stack| - 1] == rest + [x];
    assert m.stack[..|rest|] == rest;
  }

  /** An operand is replaced by its value. */
  lemma NumEffect(m: Machine, rest: seq<Entry>, y: Entry)
    requires Valid(m) && m.stack == rest + [y]
    ensures Run(m, NumOf) == match Value(m, Some(y))
                             case None => Outcome(false, m.(stack := rest))
                             case Some(v) => Outcome(true, m.(stack := rest + [Num(v)]))
  {
    TopOne(m, rest, y);
  }

  // ----- flags -----

  function Flagged(c: bool): Option<Word>
  {
    Some(if c then 1 else 0)
  }

  /** What the flags read when the last result was a sum: the carry out of the named bit,
      whether the signed sum did not fit, and the sign of the result. */
  lemma FlagsAfterAdd(m: Machine, s: Word, k: CarryBit)
    requires Valid(m) && Means(OpAdd, m.prev, s, m.cur)
    ensures Value(m, Some(Internal(Carry(k)))) == Flagged(m.prev % Pow2(k + 1) + s % Pow2(k + 1) >= Pow2(k + 1))
    ensures 2 <= m.lastsz ==> Value(m, Some(Internal(OverflowFlag)))
                              == Flagged(!FitsSigned(Signed(m.prev, m.lastsz) + Signed(s, m.lastsz), m.lastsz))
    ensures 1 <= m.lastsz ==> Value(m, Some(Internal(SignFlag))) == Flagged(Signed(m.cur, m.lastsz) < 0)
  {
    hide Pow2, Signed, FitsSigned, OverflowCheck, SignCheck, CarryCheck, Means, Add;
    ApplyMeans(OpAdd, m.prev, s, m.cur);
    CarryAfterAdd(m.prev, s, k);
    if 2 <= m.lastsz {
      OverflowAfterAdd(m.prev, s, m.lastsz);
    }
    if 1 <= m.lastsz {
      SignIsNegative(m.cur, m.lastsz);
    }
  }

  /** What they read when it was a difference, such as that of a comparison. */
  lemma FlagsAfterSub(m: Machine, s: Word, b: nat)
    requires Valid(m) && Means(OpSub, m.prev, s, m.cur)
    ensures 1 <= b <= 64 ==> Value(m, Some(Internal(Borrow(b)))) == Flagged(m.prev % Pow2(b) < s % Pow2(b))
    ensures 2 <= m.lastsz && s % Pow2(m.lastsz) != Pow2(m.lastsz - 1) ==>
              Value(m, Some(Internal(OverflowFlag))) == Flagged(!FitsSigned(Signed(m.prev, m.lastsz) - Signed(s, m.lastsz), m.lastsz))
    ensures 1 <= m.lastsz ==> Value(m, Some(Internal(SignFlag))) == Flagged(Signed(m.cur, m.lastsz) < 0)
  {
    hide Pow2, Signed, FitsSigned, OverflowCheck, SignCheck, BorrowCheck, Means, Sub;
    ApplyMeans(OpSub, m.prev, s, m.cur);
    BorrowAfterSub(m.prev, s, b);
    if 2 <= m.lastsz {
      OverflowAfterSub(m.prev, s, m.lastsz);
    }
    if 1 <= m.lastsz {
      SignIsNegative(m.cur, m.lastsz);
    }
  }

  /** 3,4,* pushes twelve. */
  lemma ThreeTimesFour(m: Machine)
    requires Valid(m) && m.stack == [Num(3), Num(4)]
    ensures Run(m, Binary(OpMul)) == Outcome(true, m.(stack := [Num(12)]))
  {
    BinaryEffect(m, [], Num(3), Num(4), OpMul);
    WrapsModulo(12, 12);
    forall v: Word | Means(OpMul, 4, 3, v)
      ensures v == 12
    {
      WrapsModulo(12, v);
    }
  }
}
