/** The code that REIL emits for ESIL's internal flags, against the machine's checks.

    The checks look at the last two values of a destination. REIL reads the earlier one
    from a temporary that saved it and the later one from the destination itself, which
    is why a flag is only known while that register has not been written again. Masks are
    computed by emitted shifts and subtractions, as the checks compute theirs. */
module ReilFlags {
  import opened Words
  import opened Wrappers
  import opened EsilFlags
  import opened EsilMachine
  import opened Reil
  import opened EsilToReil
  import opened ReilSimulation
  import opened ReilAgreement

  // ----- straight-line code over the stack -----

  /** Instructions into fresh temporaries were emitted; the stack may differ. */
  predicate Later(s0: State, t: Trans, u: Trans)
  {
    && u.sizes == t.sizes && u.pc == t.pc && u.limit == t.limit && u.next >= t.next
    && u.cur == t.cur && u.prior == t.prior && u.lastsz == t.lastsz
    && SameTemps(Now(s0, t), Now(s0, u), t.next) && Now(s0, u).regs == Now(s0, t).regs
  }

  predicate Holds(s0: State, t: Trans, x: Slot, v: Word)
  {
    SlotBelow(x, t.next) && Read(Now(s0, t), Resolve(t.sizes, x)) == v
  }

  lemma LaterTrans(s0: State, t: Trans, u: Trans, v: Trans)
    requires Later(s0, t, u) && Later(s0, u, v)
    ensures Later(s0, t, v)
  {
    hide Now;
    forall i: nat | i < t.next
      ensures TempAt(Now(s0, v), i) == TempAt(Now(s0, t), i)
    {
      assert TempAt(Now(s0, u), i) == TempAt(Now(s0, t), i);
    }
  }

  lemma HoldsLater(s0: State, t: Trans, u: Trans, x: Slot, v: Word)
    requires Later(s0, t, u) && Holds(s0, t, x, v)
    ensures Holds(s0, u, x, v)
  {
    hide Now;
  }

  /** The stack is `rest` and a temporary of the given size that holds v. */
  predicate On(s0: State, t: Trans, rest: seq<Slot>, size: nat, v: Word)
  {
    && |t.stack| == |rest| + 1 && t.stack[..|rest|] == rest
    && t.stack[|rest|].Sized? && t.stack[|rest|].a.TempArg? && t.stack[|rest|].a.size == size
    && Holds(s0, t, t.stack[|rest|], v)
  }

  lemma ComputedHolds(s0: State, t: Trans, rest: seq<Slot>, op: Opcode, a0: Arg, a1: Arg, size: nat)
    requires op != Jump
    ensures var s, u := Now(s0, t), Computed(t, rest, op, a0, a1, size);
            Later(s0, t, u) && On(s0, u, rest, size, Truncate(Compute(op, Read(s, a0), Read(s, a1)), size))
  {
    hide Exec, Compute;
    ComputedEffect(s0, t, rest, op, a0, a1, size);
  }

  lemma Whole(v: Word)
    ensures Truncate(v, 64) == v
  {
    Pow2Is64();
    TruncateFits(v, 64);
  }

  lemma BinaryHolds(s0: State, t: Trans, rest: seq<Slot>, x1: Slot, x2: Slot, b: BinOp, v1: Word, v2: Word)
    requires t.stack == rest + [x1, x2] && |t.stack| <= t.limit
    requires Wider(Resolve(t.sizes, x2), Resolve(t.sizes, x1)) == 64
    requires Holds(s0, t, x1, v1) && Holds(s0, t, x2, v2)
    ensures var u := BinaryOp(t, Arith(b)).t;
            Later(s0, t, u) && On(s0, u, rest, 64, Compute(Arith(b), v2, v1))
  {
    hide Exec, Compute, BinaryOp, Later, On;
    BinaryComputes(t, rest, x1, x2, Arith(b));
    ComputedHolds(s0, t, rest, Arith(b), Resolve(t.sizes, x2), Resolve(t.sizes, x1), 64);
    Whole(Compute(Arith(b), v2, v1));
  }

  lemma LessHolds(s0: State, t: Trans, rest: seq<Slot>, x1: Slot, x2: Slot, v1: Word, v2: Word)
    requires t.stack == rest + [x1, x2] && |t.stack| <= t.limit
    requires Holds(s0, t, x1, v1) && Holds(s0, t, x2, v2)
    ensures var u := BinaryOp(t, Less).t;
            Later(s0, t, u) && On(s0, u, rest, 1, if v2 < v1 then 1 else 0)
  {
    hide Exec, BinaryOp, Later, On;
    BinaryComputes(t, rest, x1, x2, Less);
    ComputedHolds(s0, t, rest, Less, Resolve(t.sizes, x2), Resolve(t.sizes, x1), 1);
    TruncateBit(if v2 < v1 then 1 else 0);
  }

  /** One operand on the stack, and a constant pushed over it. */
  lemma ConstantHolds(s0: State, t: Trans, rest: seq<Slot>, x: Slot, v: Word, n: Word, b: BinOp)
    requires t.stack == rest + [x] && |rest| + 2 <= t.limit && Resolve(t.sizes, x).size <= 64 && Holds(s0, t, x, v)
    ensures var u := BinaryOp(PushConst(t, n), Arith(b)).t;
            Later(s0, t, u) && On(s0, u, rest, 64, Compute(Arith(b), n, v))
  {
    hide Exec, Compute, BinaryOp, Later, On;
    var p := PushConst(t, n);
    assert p.stack == rest + [x, Raw(Num(n))];
    assert Holds(s0, p, x, v) && Holds(s0, p, Raw(Num(n)), n);
    BinaryHolds(s0, p, rest, x, Raw(Num(n)), b, v, n);
    LaterIgnoresStack(s0, p, t, BinaryOp(p, Arith(b)).t);
  }

  lemma LaterIgnoresStack(s0: State, p: Trans, t: Trans, u: Trans)
    requires Later(s0, p, u) && p == t.(stack := p.stack)
    ensures Later(s0, t, u)
  {
  }

  /** What is on top of the stack, as an operand. */
  lemma TopHolds(s0: State, t: Trans, rest: seq<Slot>, size: nat, v: Word)
    requires On(s0, t, rest, size, v)
    ensures var x := t.stack[|rest|];
            && x.Sized? && x.a.TempArg? && t.stack == rest + [x] && Resolve(t.sizes, x) == x.a && x.a.size == size && Holds(s0, t, x, v)
            && Below(x.a, t.next) && Read(Now(s0, t), x.a) == v
  {
    hide Now;
  }

  // ----- carry and borrow -----

  lemma SixBits(x: Word)
    ensures Compute(Arith(OpAnd), 0x3f, x) == Low6(x)
  {
    Low6IsMask(x);
    AndCommutes(x, 0x3f);
  }

  /** Keeping the low six bits of the top of the stack. */
  lemma MaskBitHolds(s0: State, t: Trans, rest: seq<Slot>, x: Slot, v: Word)
    requires t.stack == rest + [x] && |rest| + 2 <= t.limit && Resolve(t.sizes, x).size <= 64 && Holds(s0, t, x, v)
    ensures Later(s0, t, MaskBit(t)) && On(s0, MaskBit(t), rest, 64, Low6(v))
  {
    hide Exec, Compute, BinaryOp, Later, On;
    ConstantHolds(s0, t, rest, x, v, 0x3f, OpAnd);
    SixBits(v);
  }

  lemma MaskIsGenmask(bits: nat)
    requires bits < 64
    ensures Sub(Shl(2, bits), 1) == Genmask(bits)
  {
    if Sub(Shl(2, bits), 1) == 0 {
      GenmaskIsOnes(bits);
      ShlIsProduct(2, bits);
      assert MulNat(2, Pow2(bits)) == TWO64;
      ModuloUnique(TWO64, TWO64, 1, 0);
    }
  }

  lemma MaskCodeHolds(s0: State, t: Trans, rest: seq<Slot>, bits: Word)
    requires On(s0, t, rest, 64, bits) && bits < 64 && |rest| + 2 <= t.limit
    ensures Later(s0, t, MaskCode(t)) && On(s0, MaskCode(t), rest, 64, Genmask(bits))
  {
    hide Exec, Compute, BinaryOp, StepOp, Later, On, Genmask;
    TopHolds(s0, t, rest, 64, bits);
    ConstantHolds(s0, t, rest, t.stack[|rest|], bits, 2, OpShl);
    var u := BinaryOp(PushConst(t, 2), Arith(OpShl)).t;
    LaterLimit(s0, t, u);
    StepHolds(s0, u, rest, Compute(Arith(OpShl), 2, bits));
    LaterTrans(s0, t, u, MaskCode(t));
    MaskValue(bits);
  }

  lemma MaskValue(bits: Word)
    requires bits < 64
    ensures Compute(Arith(OpSub), Compute(Arith(OpShl), 2, bits), 1) == Genmask(bits)
  {
    MaskIsGenmask(bits);
  }

  lemma StepHolds(s0: State, t: Trans, rest: seq<Slot>, v: Word)
    requires On(s0, t, rest, 64, v) && |rest| + 2 <= t.limit
    ensures var u := StepOp(t, OpSub).t; Later(s0, t, u) && On(s0, u, rest, 64, Compute(Arith(OpSub), v, 1))
  {
    hide Exec, Compute, StepOp, Later, On;
    TopHolds(s0, t, rest, 64, v);
    var x := t.stack[|rest|];
    StepComputes(t, rest, x, OpSub);
    ComputedHolds(s0, t, rest, Arith(OpSub), x.a, ConstArg(1, 64), 64);
    Whole(Compute(Arith(OpSub), v, 1));
  }

  /** One of the flag registers under a mask that was popped. */
  lemma MaskedHolds(s0: State, t: Trans, mask: Arg, k: Word, x: Slot, v: Word)
    requires |t.stack| + 2 <= t.limit && Resolve(t.sizes, x).size <= 64 && Holds(s0, t, x, v)
    requires mask.TempArg? && mask.size == 64 && Holds(s0, t, Sized(mask), k)
    ensures var u := BinaryOp(PushArg(PushSlot(t, x), mask), Arith(OpAnd)).t;
            Later(s0, t, u) && On(s0, u, t.stack, 64, Compute(Arith(OpAnd), k, v))
  {
    hide Exec, Compute, BinaryOp, Later, On;
    var p := PushArg(PushSlot(t, x), mask);
    assert p.stack == t.stack + [x, Sized(mask)];
    assert Holds(s0, p, x, v) && Holds(s0, p, Sized(mask), k);
    BinaryHolds(s0, p, t.stack, x, Sized(mask), OpAnd, v, k);
    LaterIgnoresStack(s0, p, t, BinaryOp(p, Arith(OpAnd)).t);
  }

  /** The flag registers hold the destination's values before and after. */
  predicate FlagSlots(s0: State, t: Trans, p: Word, c: Word)
  {
    && Holds(s0, t, t.prior, p) && Resolve(t.sizes, t.prior).size <= 64
    && Holds(s0, t, t.cur, c) && Resolve(t.sizes, t.cur).size <= 64
  }

  lemma FlagSlotsLater(s0: State, t: Trans, u: Trans, p: Word, c: Word)
    requires FlagSlots(s0, t, p, c) && Later(s0, t, u)
    ensures FlagSlots(s0, u, p, c)
  {
    hide Now;
    HoldsLater(s0, t, u, t.prior, p);
    HoldsLater(s0, t, u, t.cur, c);
  }

  /** Two temporaries over `rest`. */
  predicate OnTwo(s0: State, t: Trans, rest: seq<Slot>, v1: Word, v2: Word)
  {
    && |t.stack| == |rest| + 2 && t.stack[..|rest|] == rest
    && Holds(s0, t, t.stack[|rest|], v1) && Holds(s0, t, t.stack[|rest| + 1], v2)
  }

  lemma MaskedPairHolds(s0: State, t: Trans, rest: seq<Slot>, bits: Word, p: Word, c: Word)
    requires On(s0, t, rest, 64, bits) && bits < 64 && |rest| + 3 <= t.limit && FlagSlots(s0, t, p, c)
    ensures var u := MaskedPair(t);
            && Later(s0, t, u)
            && OnTwo(s0, u, rest, AndW(Genmask(bits), p), AndW(Genmask(bits), c))
  {
    hide Exec, Compute, BinaryOp, MaskCode, Later, On, Genmask, FlagSlots, Holds;
    MaskCodeHolds(s0, t, rest, bits);
    var g, mask := MaskCode(t), Genmask(bits);
    TopHolds(s0, g, rest, 64, mask);
    PopLast(g, rest, g.stack[|rest|]);
    var a, q := g.stack[|rest|].a, g.(stack := rest);
    HoldsIgnoresStack(s0, g, q, g.stack[|rest|], mask);
    LaterSetsStack(s0, t, g, q);
    LaterLimit(s0, t, q);
    FlagSlotsLater(s0, t, q, p, c);
    SecondMask(s0, q, a, mask, p, c);
    LaterTrans(s0, t, q, MaskedPair(t));
  }

  lemma HoldsIgnoresStack(s0: State, g: Trans, q: Trans, x: Slot, v: Word)
    requires Holds(s0, g, x, v) && q == g.(stack := q.stack)
    ensures Holds(s0, q, x, v)
  {
  }

  lemma LaterSetsStack(s0: State, t: Trans, g: Trans, q: Trans)
    requires Later(s0, t, g) && q == g.(stack := q.stack)
    ensures Later(s0, t, q)
  {
  }

  /** What MaskedPair does with its mask. */
  lemma SecondMask(s0: State, q: Trans, a: Arg, k: Word, p: Word, c: Word)
    requires |q.stack| + 3 <= q.limit && FlagSlots(s0, q, p, c)
    requires a.TempArg? && a.size == 64 && Holds(s0, q, Sized(a), k)
    ensures var t1 := BinaryOp(PushArg(PushSlot(q, q.prior), a), Arith(OpAnd)).t;
            var u := BinaryOp(PushArg(PushSlot(t1, t1.cur), a), Arith(OpAnd)).t;
            Later(s0, q, u) && OnTwo(s0, u, q.stack, AndW(k, p), AndW(k, c))
  {
    hide Exec, BinaryOp, Later;
    MaskedHolds(s0, q, a, k, q.prior, p);
    var t1 := BinaryOp(PushArg(PushSlot(q, q.prior), a), Arith(OpAnd)).t;
    TopHolds(s0, t1, q.stack, 64, AndW(k, p));
    FlagSlotsLater(s0, q, t1, p, c);
    HoldsLater(s0, q, t1, Sized(a), k);
    assert t1.limit == q.limit by {
      LaterLimit(s0, q, t1);
    }
    MaskedHolds(s0, t1, a, k, t1.cur, c);
    var u := BinaryOp(PushArg(PushSlot(t1, t1.cur), a), Arith(OpAnd)).t;
    LaterTrans(s0, q, t1, u);
    HoldsLater(s0, t1, u, t1.stack[|q.stack|], AndW(k, p));
    TopHolds(s0, u, t1.stack, 64, AndW(k, c));
    assert u.stack[|q.stack|] == t1.stack[|q.stack|] && u.stack[..|q.stack|] == q.stack;
  }

  lemma LaterLimit(s0: State, t: Trans, u: Trans)
    requires Later(s0, t, u)
    ensures u.limit == t.limit
  {
  }

  /** A constant below 64, masked. */
  lemma BitHolds(s0: State, t: Trans, bit: Word)
    requires |t.stack| + 2 <= t.limit
    ensures var u := MaskBit(PushConst(t, bit)); Later(s0, t, u) && On(s0, u, t.stack, 64, Low6(bit))
  {
    hide Exec, MaskBit, On, Later;
    var q := PushConst(t, bit);
    assert Holds(s0, q, Raw(Num(bit)), bit);
    MaskBitHolds(s0, q, t.stack, Raw(Num(bit)), bit);
    LaterIgnoresStack(s0, q, t, MaskBit(q));
  }

  /** The masked pair for a bit number on the stack of a later translator. */
  lemma PairAfter(s0: State, t: Trans, m: Trans, rest: seq<Slot>, bits: Word, p: Word, c: Word)
    requires Later(s0, t, m) && On(s0, m, rest, 64, bits) && bits < 64 && |rest| + 3 <= t.limit && FlagSlots(s0, t, p, c)
    ensures var u := MaskedPair(m);
            && Later(s0, t, u) && u.limit == t.limit
            && OnTwo(s0, u, rest, AndW(Genmask(bits), p), AndW(Genmask(bits), c))
  {
    hide Exec, MaskedPair, On, OnTwo, FlagSlots, Later, Genmask;
    FlagSlotsLater(s0, t, m, p, c);
    LaterLimit(s0, t, m);
    MaskedPairHolds(s0, m, rest, bits, p, c);
    LaterTrans(s0, t, m, MaskedPair(m));
    LaterLimit(s0, t, MaskedPair(m));
  }

  function Bit(b: bool): (w: Word)
    ensures w <= 1
  {
    if b then 1 else 0
  }

  lemma TwoHold(s0: State, t: Trans, rest: seq<Slot>, v1: Word, v2: Word)
    requires OnTwo(s0, t, rest, v1, v2)
    ensures var x1, x2 := t.stack[|rest|], t.stack[|rest| + 1];
            t.stack == rest + [x1, x2] && Holds(s0, t, x1, v1) && Holds(s0, t, x2, v2)
  {
  }

  lemma CarryCodeHolds(s0: State, t: Trans, bit: Word, p: Word, c: Word)
    requires bit < 64 && |t.stack| + 3 <= t.limit && FlagSlots(s0, t, p, c)
    ensures var u := CarryCode(t, bit);
            Later(s0, t, u) && On(s0, u, t.stack, 1, Bit(CarryCheck(p, c, bit)))
  {
    hide Exec, MaskedPair, MaskBit, On, OnTwo, FlagSlots, Later, Genmask, BinaryOp, Holds;
    BitHolds(s0, t, bit);
    var m := MaskBit(PushConst(t, bit));
    PairAfter(s0, t, m, t.stack, bit, p, c);
    var d := MaskedPair(m);
    var vp, vc := AndW(Genmask(bit), p), AndW(Genmask(bit), c);
    TwoHold(s0, d, t.stack, vp, vc);
    LessHolds(s0, d, t.stack, d.stack[|t.stack|], d.stack[|t.stack| + 1], vp, vc);
    LaterTrans(s0, t, d, CarryCode(t, bit));
    AndCommutes(p, Genmask(bit));
    AndCommutes(c, Genmask(bit));
  }

  lemma GreaterHolds(s0: State, t: Trans, rest: seq<Slot>, v1: Word, v2: Word)
    requires OnTwo(s0, t, rest, v1, v2) && |rest| + 2 <= t.limit
    ensures var u := GreaterOp(t).t;
            Later(s0, t, u) && On(s0, u, rest, 1, Bit(v1 < v2))
  {
    hide Exec, On, Later, BinaryOp;
    var x1, x2 := t.stack[|rest|], t.stack[|rest| + 1];
    TwoHold(s0, t, rest, v1, v2);
    assert t.stack == (rest + [x1]) + [x2];
    PopLast(t, rest + [x1], x2);
    PopLast(t.(stack := rest + [x1]), rest, x1);
    var a2, a1 := Resolve(t.sizes, x2), Resolve(t.sizes, x1);
    var q := t.(stack := rest + [Sized(a2), Sized(a1)]);
    assert PushArg(PushArg(t.(stack := rest), a2), a1) == q;
    assert Holds(s0, q, Sized(a2), v2) && Holds(s0, q, Sized(a1), v1);
    LessHolds(s0, q, rest, Sized(a2), Sized(a1), v2, v1);
    LaterIgnoresStack(s0, q, t, BinaryOp(q, Less).t);
  }

  lemma BorrowBitValue(bit: Word)
    ensures Low6(Compute(Arith(OpAdd), 0x3f, Low6(bit))) == BorrowBit(bit)
  {
  }

  lemma BorrowCodeHolds(s0: State, t: Trans, bit: Word, p: Word, c: Word)
    requires |t.stack| + 3 <= t.limit && FlagSlots(s0, t, p, c)
    ensures var u := BorrowCode(t, bit);
            Later(s0, t, u) && On(s0, u, t.stack, 1, Bit(BorrowCheck(p, c, bit)))
  {
    hide Exec, MaskedPair, MaskBit, On, OnTwo, FlagSlots, Later, Genmask, BinaryOp, GreaterOp, Holds, Compute, BorrowBit;
    var t1, sum := MaskBit(PushConst(t, bit)), Compute(Arith(OpAdd), 0x3f, Low6(bit));
    BitHolds(s0, t, bit);
    LaterLimit(s0, t, t1);
    TopHolds(s0, t1, t.stack, 64, Low6(bit));
    ConstantHolds(s0, t1, t.stack, t1.stack[|t.stack|], Low6(bit), 0x3f, OpAdd);
    var t2 := BinaryOp(PushConst(t1, 0x3f), Arith(OpAdd)).t;
    LaterTrans(s0, t, t1, t2);
    LaterLimit(s0, t, t2);
    TopHolds(s0, t2, t.stack, 64, sum);
    MaskBitHolds(s0, t2, t.stack, t2.stack[|t.stack|], sum);
    LaterTrans(s0, t, t2, MaskBit(t2));
    BorrowBitValue(bit);
    BorrowPair(s0, t, MaskBit(t2), bit, p, c);
  }

  lemma BorrowPair(s0: State, t: Trans, m: Trans, bit: Word, p: Word, c: Word)
    requires Later(s0, t, m) && On(s0, m, t.stack, 64, BorrowBit(bit)) && |t.stack| + 3 <= t.limit && FlagSlots(s0, t, p, c)
    ensures var u := GreaterOp(MaskedPair(m)).t;
            Later(s0, t, u) && On(s0, u, t.stack, 1, Bit(BorrowCheck(p, c, bit)))
  {
    hide Exec, MaskedPair, On, OnTwo, FlagSlots, Later, Genmask, GreaterOp, Holds, BorrowBit;
    var k := BorrowBit(bit);
    PairAfter(s0, t, m, t.stack, k, p, c);
    var d := MaskedPair(m);
    GreaterHolds(s0, d, t.stack, AndW(Genmask(k), p), AndW(Genmask(k), c));
    LaterTrans(s0, t, d, GreaterOp(d).t);
    AndCommutes(p, Genmask(k));
    AndCommutes(c, Genmask(k));
  }

  // ----- sign -----

  lemma {:induction false} AndBit(x: nat, k: nat)
    ensures And(x, Pow2(k)) == if Shr(x, k) % 2 == 1 then Pow2(k) else 0
    decreases k
  {
    if k == 0 {
      assert And(x / 2, 0) == 0;
    } else {
      AndBit(x / 2, k - 1);
      assert Pow2(k) / 2 == Pow2(k - 1) && Pow2(k) % 2 == 0;
      if x == 0 {
        ShrZero(k);
      }
    }
  }

  lemma {:induction false} ShrZero(k: nat)
    ensures Shr(0, k) == 0
  {
    if k > 0 {
      ShrZero(k - 1);
    }
  }

  lemma {:induction false} ShrPow(k: nat)
    ensures Shr(Pow2(k), k) == 1
  {
    if k > 0 {
      assert Pow2(k) / 2 == Pow2(k - 1);
      ShrPow(k - 1);
    }
  }

  lemma ShlOne(k: nat)
    requires k < 64
    ensures Shl(1, k) == Pow2(k)
  {
    ShlIsProduct(1, k);
    Pow2AtMost64(k + 1);
    assert MulNat(1, Pow2(k)) == Pow2(k);
    ModuloUnique(Pow2(k), TWO64, 0, Pow2(k));
  }

  /** Isolating bit k and shifting it down. */
  lemma BitShifted(c: Word, k: nat)
    requires k < 64
    ensures Shr(And(c, Shl(1, k)), k) == Shr(c, k) % 2
  {
    hide And, Shr, Shl, Pow2;
    ShlOne(k);
    AndBit(c, k);
    ShrPow(k);
    ShrZero(k);
  }

  lemma SignCodeHolds(s0: State, t: Trans, p: Word, c: Word)
    requires |t.stack| + 2 <= t.limit && FlagSlots(s0, t, p, c) && 1 <= t.lastsz <= 64
    ensures var u := SignCode(t);
            Later(s0, t, u) && On(s0, u, t.stack, 64, Bit(SignCheck(c, t.lastsz)))
  {
    hide Exec, On, FlagSlots, Later, BinaryOp, Holds, Compute, SignCheck;
    var k: Word := t.lastsz - 1;
    assert ByteWord(t.lastsz as int - 1) == k;
    var q := PushConst(t, k);
    assert Holds(s0, q, Raw(Num(k)), k) by {
      ConstHolds(s0, q, k);
    }
    ConstantHolds(s0, q, t.stack, Raw(Num(k)), k, 1, OpShl);
    var t1, one := BinaryOp(PushConst(q, 1), Arith(OpShl)).t, Compute(Arith(OpShl), 1, k);
    LaterIgnoresStack(s0, q, t, t1);
    LaterLimit(s0, t, t1);
    TopHolds(s0, t1, t.stack, 64, one);
    FlagSlotsLater(s0, t, t1, p, c);
    CurOver(s0, t1, t.stack, one, p, c);
    var t2, bit := BinaryOp(PushSlot(t1, t1.cur), Arith(OpAnd)).t, Compute(Arith(OpAnd), c, one);
    LaterTrans(s0, t, t1, t2);
    LaterLimit(s0, t, t2);
    TopHolds(s0, t2, t.stack, 64, bit);
    PopLast(t2, t.stack, t2.stack[|t.stack|]);
    ShiftDown(s0, t2, t.stack, k, bit);
    SameSize(s0, t, t1);
    LaterTrans(s0, t, t2, SignCode(t));
    SignValue(c, t.lastsz);
  }

  lemma SameSize(s0: State, t: Trans, u: Trans)
    requires Later(s0, t, u)
    ensures u.lastsz == t.lastsz && u.cur == t.cur
  {
  }

  lemma ConstHolds(s0: State, t: Trans, n: Word)
    ensures Holds(s0, t, Raw(Num(n)), n)
  {
  }

  lemma SignValue(c: Word, size: nat)
    requires 1 <= size <= 64
    ensures Compute(Arith(OpShr), Compute(Arith(OpAnd), c, Compute(Arith(OpShl), 1, size - 1)), size - 1) == Bit(SignCheck(c, size))
  {
    hide And, Shr, Shl, Pow2;
    ShiftBelow64(size - 1);
    BitShifted(c, size - 1);
  }

  lemma ShiftBelow64(k: Word)
    requires k < 64
    ensures Compute(Arith(OpShl), 1, k) == Shl(1, k) && forall v: Word :: Compute(Arith(OpShr), v, k) == Shr(v, k)
  {
    assert k % 64 == k;
  }

  /** The current value of the destination combined with the top of the stack. */
  lemma CurOver(s0: State, t: Trans, rest: seq<Slot>, v: Word, p: Word, c: Word)
    requires On(s0, t, rest, 64, v) && |rest| + 2 <= t.limit && FlagSlots(s0, t, p, c)
    ensures var u := BinaryOp(PushSlot(t, t.cur), Arith(OpAnd)).t;
            Later(s0, t, u) && On(s0, u, rest, 64, Compute(Arith(OpAnd), c, v))
  {
    hide Exec, On, Later, BinaryOp, Compute;
    TopHolds(s0, t, rest, 64, v);
    var x, q := t.stack[|rest|], PushSlot(t, t.cur);
    assert q.stack == rest + [x, t.cur];
    assert Holds(s0, q, x, v) && Holds(s0, q, t.cur, c);
    BinaryHolds(s0, q, rest, x, t.cur, OpAnd, v, c);
    LaterIgnoresStack(s0, q, t, BinaryOp(q, Arith(OpAnd)).t);
  }

  /** Popping a temporary, pushing a count, and shifting the temporary by it. */
  lemma ShiftDown(s0: State, t: Trans, rest: seq<Slot>, k: Word, v: Word)
    requires On(s0, t, rest, 64, v) && |rest| + 2 <= t.limit
    ensures var u := BinaryOp(PushArg(PushConst(t.(stack := rest), k), t.stack[|rest|].a), Arith(OpShr)).t;
            Later(s0, t, u) && On(s0, u, rest, 64, Compute(Arith(OpShr), v, k))
  {
    hide Exec, On, Later, BinaryOp, Compute;
    TopHolds(s0, t, rest, 64, v);
    var a := t.stack[|rest|].a;
    var q := PushArg(PushConst(t.(stack := rest), k), a);
    assert q.stack == rest + [Raw(Num(k)), Sized(a)];
    assert Holds(s0, q, Raw(Num(k)), k) && Holds(s0, q, Sized(a), v);
    BinaryHolds(s0, q, rest, Raw(Num(k)), Sized(a), OpShr, k, v);
    LaterIgnoresStack(s0, q, t, BinaryOp(q, Arith(OpShr)).t);
  }

  // ----- overflow -----

  /** Two single bits combined. */
  lemma XorHolds(s0: State, t: Trans, m: Trans, rest: seq<Slot>, x: Slot, a: bool, b: bool)
    requires Later(s0, t, m) && On(s0, m, rest + [x], 1, Bit(b)) && |rest| + 2 <= t.limit
    requires Holds(s0, t, x, Bit(a)) && Resolve(t.sizes, x).size == 1
    ensures var u := BinaryOp(m, Arith(OpXor)).t; Later(s0, t, u) && On(s0, u, rest, 1, Bit(a != b))
  {
    hide Exec, On, Later, BinaryOp, Compute;
    LaterLimit(s0, t, m);
    LaterSizes(s0, t, m);
    HoldsLater(s0, t, m, x, Bit(a));
    TopHolds(s0, m, rest + [x], 1, Bit(b));
    var y := m.stack[|rest| + 1];
    assert m.stack == rest + [x, y];
    BinaryComputes(m, rest, x, y, Arith(OpXor));
    ComputedHolds(s0, m, rest, Arith(OpXor), Resolve(m.sizes, y), Resolve(m.sizes, x), 1);
    XorOfBits(b, a);
    TruncateBit(Bit(a != b));
    LaterTrans(s0, t, m, BinaryOp(m, Arith(OpXor)).t);
  }

  lemma LaterSizes(s0: State, t: Trans, u: Trans)
    requires Later(s0, t, u)
    ensures u.sizes == t.sizes
  {
  }

  lemma XorOfBits(a: bool, b: bool)
    ensures Compute(Arith(OpXor), Bit(a), Bit(b)) == Bit(b != a)
  {
  }

  /** The overflow code compares the borrow of all the destination's bits with the carry
      into the one below its sign. */
  lemma OverflowCodeHolds(s0: State, t: Trans, p: Word, c: Word)
    requires |t.stack| + 4 <= t.limit && FlagSlots(s0, t, p, c) && 2 <= t.lastsz <= 64
    ensures var u := OverflowCode(t);
            Later(s0, t, u) && On(s0, u, t.stack, 1, Bit(BorrowCheck(p, c, t.lastsz) != CarryCheck(p, c, t.lastsz - 2)))
  {
    hide Exec, On, FlagSlots, Later, BinaryOp, BorrowCode, CarryCode, BorrowCheck, CarryCheck;
    var n: Word := t.lastsz;
    assert ByteWord(t.lastsz as int) == n && ByteWord(t.lastsz as int - 2) == n - 2;
    BorrowCodeHolds(s0, t, n, p, c);
    var t1 := BorrowCode(t, n);
    TopHolds(s0, t1, t.stack, 1, Bit(BorrowCheck(p, c, n)));
    LaterLimit(s0, t, t1);
    FlagSlotsLater(s0, t, t1, p, c);
    CarryCodeHolds(s0, t1, n - 2, p, c);
    var x := t1.stack[|t.stack|];
    XorHolds(s0, t1, CarryCode(t1, n - 2), t.stack, x, BorrowCheck(p, c, n), CarryCheck(p, c, n - 2));
    LaterTrans(s0, t, t1, OverflowCode(t));
  }

  /** So it holds what ESIL reads exactly when the destination's bits did not change. */
  lemma OverflowCodeAgrees(s0: State, t: Trans, p: Word, c: Word)
    requires |t.stack| + 4 <= t.limit && FlagSlots(s0, t, p, c) && 2 <= t.lastsz <= 64
    ensures On(s0, OverflowCode(t), t.stack, 1, Bit(OverflowCheck(p, c, t.lastsz))) <==> p % Pow2(t.lastsz) == c % Pow2(t.lastsz)
  {
    hide Exec, On, FlagSlots, Later, OverflowCode, BorrowCheck, CarryCheck;
    OverflowCodeHolds(s0, t, p, c);
    BorrowCompares(p, c, t.lastsz);
    CarryCompares(p, c, t.lastsz - 1);
    OnIsUnique(s0, OverflowCode(t), t.stack, 1, Bit(BorrowCheck(p, c, t.lastsz) != CarryCheck(p, c, t.lastsz - 2)),
               Bit(OverflowCheck(p, c, t.lastsz)));
  }

  lemma OnIsUnique(s0: State, t: Trans, rest: seq<Slot>, size: nat, v: Word, w: Word)
    requires On(s0, t, rest, size, v)
    ensures On(s0, t, rest, size, w) <==> v == w
  {
  }

  // ----- agreement -----

  /** The flags whose code looks only at bits that the destination has. */
  predicate Computable(f: Flag, size: nat)
  {
    match f
    case Carry(bit) => bit < size
    case Borrow(bit) => BorrowBit(bit) < size
    case SignFlag => true
    case RegSize => true
    case OverflowFlag => false
  }

  /** The stack slots that a flag's code takes. */
  function Space(f: Flag): nat
  {
    match f
    case Carry(_) => 3
    case Borrow(_) => 3
    case SignFlag => 2
    case RegSize => 1
    case OverflowFlag => 4
  }

  /** Bits that the destination does not have read differently: a result just too large
      for the destination borrows and carries there, and its remains do not. */
  lemma BeyondSizeDiffers(size: nat, bit: nat)
    requires 1 <= size <= bit < 64
    ensures Pow2(size) < TWO64
    ensures CarryCheck(1, Truncate(Pow2(size), size), bit) != CarryCheck(1, Pow2(size), bit)
    ensures BorrowCheck(0, Truncate(Pow2(size), size), bit + 1) != BorrowCheck(0, Pow2(size), bit + 1)
  {
    hide CarryCheck, BorrowCheck, Pow2, Truncate;
    BeyondSize(size, bit);
    var v := Pow2(size);
    ModuloUnique(v, Pow2(bit + 1), 0, v);
    ModuloUnique(1, Pow2(bit + 1), 0, 1);
    ModuloUnique(0, Pow2(bit + 1), 0, 0);
    CarryCompares(1, 0, bit);
    CarryCompares(1, v, bit);
    BorrowCompares(0, 0, bit + 1);
    BorrowCompares(0, v, bit + 1);
  }

  lemma BeyondSize(size: nat, bit: nat)
    requires 1 <= size <= bit < 64
    ensures Pow2(size) < TWO64 && 1 < Pow2(bit + 1) && Pow2(size) < Pow2(bit + 1)
    ensures Truncate(Pow2(size), size) == 0
  {
    Pow2AtMost64(size + 1);
    Pow2Monotone(size + 1, bit + 1);
    Pow2Monotone(1, bit + 1);
    ModuloUnique(Pow2(size), Pow2(size), 1, 0);
  }

  /** The checks do not look beyond the destination's size. */
  lemma CarryLooksInside(prev: Word, cur: Word, size: nat, k: nat)
    requires k < size <= 64
    ensures CarryCheck(prev, Truncate(cur, size), k) == CarryCheck(prev, cur, k)
  {
    hide CarryCheck, Truncate;
    CarryCompares(prev, cur, k);
    CarryCompares(prev, Truncate(cur, size), k);
    SameLow(cur, k + 1, size);
  }

  lemma BorrowLooksInside(prev: Word, cur: Word, size: nat, b: nat)
    requires BorrowBit(b) < size <= 64
    ensures BorrowCheck(prev, Truncate(cur, size), b) == BorrowCheck(prev, cur, b)
  {
    hide BorrowCheck, Truncate, BorrowBit;
    BorrowCompares(prev, cur, b);
    BorrowCompares(prev, Truncate(cur, size), b);
    SameLow(cur, BorrowBit(b) + 1, size);
  }

  lemma SignLooksInside(cur: Word, size: nat)
    requires 1 <= size <= 64
    ensures SignCheck(Truncate(cur, size), size) == SignCheck(cur, size)
  {
    hide SignCheck, Truncate;
    SignIsNegative(cur, size);
    SignIsNegative(Truncate(cur, size), size);
    SameLow(cur, size, size);
  }

  lemma SameLow(v: Word, n: nat, size: nat)
    requires n <= size
    ensures Truncate(v, size) % Pow2(n) == v % Pow2(n)
  {
    TruncateWider(v, n, size);
  }

  lemma KnownSlots(m: Machine, s0: State, t: Trans, name: string)
    requires Valid(m) && FlagsKnown(m, s0, t, name) && t.sizes == m.sizes && Now(s0, t).regs == m.regs
    ensures name in m.sizes && FlagSlots(s0, t, m.prev, Truncate(m.cur, m.sizes[name])) && 1 <= m.sizes[name] <= 64
    ensures t.lastsz == m.sizes[name] && m.lastsz == m.sizes[name]
  {
    hide Now;
  }

  /** A pushed result is popped as the source of the assignment. */
  lemma PopOn(s0: State, t: Trans, u: Trans, size: nat, v: Word)
    requires Later(s0, t, u) && On(s0, u, t.stack, size, v)
    ensures SourceHolds(s0, t, PopArg(u), v)
  {
    hide Exec;
    TopHolds(s0, u, t.stack, size, v);
    PopLast(u, t.stack, u.stack[|t.stack|]);
  }

  /** The source was computed: it is no register, and has the given value. */
  predicate SourceHolds(s0: State, t: Trans, p: Popped, v: Word)
  {
    && Later(s0, t, p.t) && p.t.stack == t.stack
    && p.a.Some? && !p.a.value.RegArg? && Below(p.a.value, p.t.next)
    && Read(Now(s0, p.t), p.a.value) == v
  }

  /** The emitted code computes what the machine reads from the flag. */
  lemma FlagCodeAgrees(m: Machine, s0: State, t: Trans, name: string, f: Flag)
    requires Valid(m) && FlagsKnown(m, s0, t, name) && t.sizes == m.sizes && Now(s0, t).regs == m.regs
    requires |t.stack| + Space(f) <= t.limit && name in m.sizes && Computable(f, m.sizes[name])
    ensures SourceHolds(s0, t, Source(t, FlagArg(f, 0)), ReadFlag(m, f))
  {
    hide Exec, FlagSlots, SourceHolds, ReadFlag, Source, Valid, FlagsKnown;
    KnownSlots(m, s0, t, name);
    var p, c := m.prev, Truncate(m.cur, m.sizes[name]);
    match f
    case Carry(bit) => CarryAgrees(m, s0, t, m.sizes[name], bit, p, c);
    case Borrow(bit) => BorrowAgrees(m, s0, t, m.sizes[name], bit, p, c);
    case SignFlag => SignAgrees(m, s0, t, p, c);
    case RegSize => SizeAgrees(m, s0, t);
  }

  lemma SizeAgrees(m: Machine, s0: State, t: Trans)
    requires Valid(m) && |t.stack| < t.limit
    ensures SourceHolds(s0, t, Source(t, FlagArg(RegSize, 0)), ReadFlag(m, RegSize))
  {
    hide SourceHolds;
    ConstSource(s0, t, 8);
  }

  lemma CarryAgrees(m: Machine, s0: State, t: Trans, size: nat, bit: CarryBit, p: Word, c: Word)
    requires Valid(m) && FlagSlots(s0, t, p, c) && |t.stack| + 3 <= t.limit
    requires bit < size <= 64 && p == m.prev && c == Truncate(m.cur, size)
    ensures SourceHolds(s0, t, Source(t, FlagArg(Carry(bit), 0)), ReadFlag(m, Carry(bit)))
  {
    hide Exec, On, Later, FlagSlots, CarryCode, SourceHolds, CarryCheck, Truncate, Valid;
    CarryLooksInside(p, m.cur, size, bit);
    CarryCodeHolds(s0, t, bit, p, c);
    assert ByteWord(bit) == bit;
    PopOn(s0, t, CarryCode(t, bit), 1, Bit(CarryCheck(p, c, bit)));
  }

  lemma BorrowAgrees(m: Machine, s0: State, t: Trans, size: nat, bit: nat, p: Word, c: Word)
    requires Valid(m) && FlagSlots(s0, t, p, c) && |t.stack| + 3 <= t.limit
    requires BorrowBit(bit) < size <= 64 && p == m.prev && c == Truncate(m.cur, size)
    ensures SourceHolds(s0, t, Source(t, FlagArg(Borrow(bit), 0)), ReadFlag(m, Borrow(bit)))
  {
    hide Exec, On, Later, FlagSlots, BorrowCode, SourceHolds, BorrowCheck, Truncate, Valid, BorrowBit, ByteWord;
    BorrowLooksInside(p, m.cur, size, bit);
    ByteIsEnough(p, c, bit);
    BorrowCodeHolds(s0, t, ByteWord(bit), p, c);
    PopOn(s0, t, BorrowCode(t, ByteWord(bit)), 1, Bit(BorrowCheck(p, c, bit)));
  }

  /** The borrow check depends on the low six bits of the bit number only. */
  lemma ByteIsEnough(p: Word, c: Word, bit: nat)
    ensures BorrowCheck(p, c, ByteWord(bit)) == BorrowCheck(p, c, bit)
  {
    hide And, Genmask;
    assert bit % 0x100 % 64 == bit % 64;
  }

  lemma SignAgrees(m: Machine, s0: State, t: Trans, p: Word, c: Word)
    requires Valid(m) && FlagSlots(s0, t, p, c) && |t.stack| + 2 <= t.limit
    requires 1 <= t.lastsz <= 64 && m.lastsz == t.lastsz && c == Truncate(m.cur, t.lastsz)
    ensures SourceHolds(s0, t, Source(t, FlagArg(SignFlag, 0)), ReadFlag(m, SignFlag))
  {
    hide Exec, On, Later, FlagSlots, SignCode, SourceHolds, SignCheck, Truncate, Valid;
    SignLooksInside(m.cur, t.lastsz);
    SignCodeHolds(s0, t, p, c);
    PopOn(s0, t, SignCode(t), 64, Bit(SignCheck(c, t.lastsz)));
  }

  lemma ConstSource(s0: State, t: Trans, n: Word)
    requires |t.stack| < t.limit
    ensures SourceHolds(s0, t, PopArg(PushConst(t, n)), n)
  {
    PopLast(PushConst(t, n), t.stack, Raw(Num(n)));
  }

  predicate FlagAssign(m: Machine, pc: string)
  {
    && |m.stack| >= 2 && FromTop(m, 2).Internal? && Target(m, pc, FromTop(m, 1))
    && |m.stack| + Space(FromTop(m, 2).flag) <= m.limit + 2
  }

  lemma FlagIgnoresStack(m: Machine, o: Machine, f: Flag)
    requires Valid(m) && Valid(o) && o == m.(stack := o.stack)
    ensures ReadFlag(o, f) == ReadFlag(m, f)
  {
    hide CarryCheck, BorrowCheck, SignCheck, OverflowCheck;
  }

  lemma EsilFlagAssign(m: Machine, es: seq<Entry>, f: Flag, e: Entry)
    requires Valid(m) && m.stack == es + [Internal(f), e] && e.Reg? && e.name in m.regs
    ensures RunAssign(m) == Outcome(true, m.(stack := es, regs := m.regs[e.name := Fit(ReadFlag(m, f), m.sizes[e.name])]))
  {
    hide Fit, CarryCheck, BorrowCheck, SignCheck, OverflowCheck, ReadFlag;
    assert m.stack[..|m.stack| - 1] == es + [Internal(f)];
    assert Pop(Pop(m)) == m.(stack := es);
    FlagIgnoresStack(m, m.(stack := es), f);
    FlagIgnoresStack(m, Pop(m), f);
  }

  /** What the translation of the assignment emits after the flag was computed. */
  lemma FlagStores(s0: State, t: Trans, rest: seq<Slot>, f: Flag, x: Slot, v: Word)
    requires t.stack == rest + [Raw(Internal(f)), x] && |rest| < t.limit
    requires KnownReg(Now(s0, t), Resolve(t.sizes, x)) && Resolve(t.sizes, x).name != t.pc
    requires SourceHolds(s0, t.(stack := rest), Source(t.(stack := rest), FlagArg(f, 0)), v)
    ensures var r, dst := AssignOp(t), Resolve(t.sizes, x);
            && r.ok && Extends(s0, t.(stack := rest), r.t)
            && Now(s0, r.t).regs == Now(s0, t).regs[dst.name := Truncate(v, dst.size)]
            && r.t.cur == t.cur && r.t.prior == t.prior && r.t.lastsz == t.lastsz
  {
    hide Exec, Source, Move;
    var dst, t1 := Resolve(t.sizes, x), t.(stack := rest);
    assert t.stack == (rest + [Raw(Internal(f))]) + [x];
    PopLast(t, rest + [Raw(Internal(f))], x);
    PopLast(t.(stack := rest + [Raw(Internal(f))]), rest, Raw(Internal(f)));
    var p := Source(t1, FlagArg(f, 0));
    MoveStores(s0, p.t, p.a.value, dst);
    ExtendsTrans(s0, t1, p.t, AssignOp(t).t);
  }

  /** Copying an internal flag to a register agrees exactly when the flag's value keeps
      in that register, and leaves the flags known unless it overwrites their register. */
  lemma FlagAssignAgrees(m: Machine, s0: State, t: Trans, name: string)
    requires Valid(m) && Wf(t) && Agree(m, s0, t) && FlagAssign(m, t.pc)
    requires FlagsKnown(m, s0, t, name) && Computable(FromTop(m, 2).flag, m.sizes[name])
    ensures var o, r, e := RunAssign(m), AssignOp(t), FromTop(m, 1);
            var fits := Keeps(ReadFlag(m, FromTop(m, 2).flag), m.sizes[e.name]);
            && o.ok && r.ok && (Agree(o.m, s0, r.t) <==> fits)
            && (e.name != name ==> FlagsKnown(o.m, s0, r.t, name))
  {
    hide Exec, AllBelow, StackAgrees, AssignOp, RunAssign, Truncate, Fit, Source, ReadFlag, SourceHolds, Keeps;
    var n := |m.stack|;
    TopTwo(m, s0, t);
    var es, rest, f := m.stack[..n - 2], t.stack[..n - 2], m.stack[n - 2].flag;
    var e, x := m.stack[n - 1], t.stack[n - 1];
    SlotValue(m, Now(s0, t), t, x, e);
    var v, size, t1 := ReadFlag(m, f), m.sizes[e.name], t.(stack := rest);
    FlagCodeAgrees(m, s0, t1, name, f);
    FlagStores(s0, t, rest, f, x, v);
    EsilFlagAssign(m, es, f, e);
    FitIff(v, size);
    StoreAgrees(m, s0, t, rest, RunAssign(m).m, AssignOp(t).t, e.name, Fit(v, size), Truncate(v, size));
  }
}
