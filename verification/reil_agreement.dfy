/** Translating an ESIL word and executing the result, against running the word.

    Both sides agree when they have the same registers and every slot of the translated
    stack stands for the entry of ESIL's stack at the same depth. A slot that names a
    register is still unread, on both sides alike, so that a later store to it shows. */
module ReilAgreement {
  import opened Words
  import opened Wrappers
  import opened EsilMachine
  import opened Reil
  import opened EsilToReil
  import opened ReilSimulation

  // ----- agreement with ESIL -----

  /** A slot stands for an entry: it is the same word, or the temporary that holds the
      number. */
  predicate SlotAgrees(s: State, x: Slot, e: Entry)
  {
    match x
    case Raw(f) => f == e
    case Sized(a) => a.TempArg? && e == Num(TempAt(s, a.id))
  }

  predicate StackAgrees(s: State, xs: seq<Slot>, es: seq<Entry>)
  {
    |xs| == |es| && forall i :: 0 <= i < |xs| ==> SlotAgrees(s, xs[i], es[i])
  }

  /** Executing the code emitted so far gives the registers that ESIL has now, and every
      stack entry stands for its ESIL counterpart. */
  predicate Agree(m: Machine, s0: State, t: Trans)
  {
    && t.sizes == m.sizes && t.limit == m.limit
    && Now(s0, t).regs == m.regs
    && StackAgrees(Now(s0, t), t.stack, m.stack)
  }

  lemma StackKept(s: State, u: State, xs: seq<Slot>, es: seq<Entry>, n: nat)
    requires StackAgrees(s, xs, es) && AllBelow(xs, n) && SameTemps(s, u, n)
    ensures StackAgrees(u, xs, es)
  {
    forall i | 0 <= i < |xs|
      ensures SlotAgrees(u, xs[i], es[i])
    {
      assert SlotAgrees(s, xs[i], es[i]) && SlotBelow(xs[i], n);
    }
  }

  lemma StackGrows(s: State, xs: seq<Slot>, es: seq<Entry>, x: Slot, e: Entry)
    requires StackAgrees(s, xs, es)
    ensures StackAgrees(s, xs + [x], es + [e]) <==> SlotAgrees(s, x, e)
  {
    var ys, fs := xs + [x], es + [e];
    if SlotAgrees(s, x, e) {
      forall i | 0 <= i < |ys|
        ensures SlotAgrees(s, ys[i], fs[i])
      {
        if i < |xs| {
          assert SlotAgrees(s, xs[i], es[i]);
        }
      }
    } else {
      assert ys[|xs|] == x && fs[|xs|] == e;
    }
  }

  lemma StackTake(s: State, xs: seq<Slot>, es: seq<Entry>, n: nat)
    requires StackAgrees(s, xs, es) && n <= |xs|
    ensures StackAgrees(s, xs[..n], es[..n])
  {
    forall i | 0 <= i < n
      ensures SlotAgrees(s, xs[..n][i], es[..n][i])
    {
      assert SlotAgrees(s, xs[i], es[i]);
    }
  }

  // ----- operands -----

  /** A number or a register of the machine. */
  predicate IsOperand(m: Machine, e: Entry)
  {
    e.Num? || (e.Reg? && e.name in m.regs)
  }

  function ValueOf(m: Machine, e: Entry): Word
    requires IsOperand(m, e)
  {
    if e.Num? then e.n else m.regs[e.name]
  }

  /** An operand and the slot that stands for it have the same value. */
  lemma SlotValue(m: Machine, s: State, t: Trans, x: Slot, e: Entry)
    requires Valid(m) && t.sizes == m.sizes && s.regs == m.regs
    requires SlotAgrees(s, x, e) && IsOperand(m, e) && SlotBelow(x, t.next)
    ensures var a := Resolve(t.sizes, x);
            && Read(s, a) == ValueOf(m, e) && ReilSimulation.Readable(s, a, t.next)
            && (e.Reg? ==> x == Raw(e) && a == RegArg(e.name, m.sizes[e.name]) && KnownReg(s, a))
  {
  }

  /** Both stacks without their top two entries, which stand for each other. */
  lemma TopTwo(m: Machine, s0: State, t: Trans)
    requires Agree(m, s0, t) && Wf(t) && |m.stack| >= 2
    ensures var n := |m.stack|;
            && |t.stack| == n && t.stack == t.stack[..n - 2] + [t.stack[n - 2], t.stack[n - 1]]
            && m.stack == m.stack[..n - 2] + [m.stack[n - 2], m.stack[n - 1]]
            && StackAgrees(Now(s0, t), t.stack[..n - 2], m.stack[..n - 2]) && AllBelow(t.stack[..n - 2], t.next)
            && SlotAgrees(Now(s0, t), t.stack[n - 2], m.stack[n - 2]) && SlotBelow(t.stack[n - 2], t.next)
            && SlotAgrees(Now(s0, t), t.stack[n - 1], m.stack[n - 1]) && SlotBelow(t.stack[n - 1], t.next)
  {
    hide Now;
    var n := |m.stack|;
    assert |t.stack| == n;
    assert SlotAgrees(Now(s0, t), t.stack[n - 2], m.stack[n - 2]) && SlotAgrees(Now(s0, t), t.stack[n - 1], m.stack[n - 1]);
    assert SlotBelow(t.stack[n - 2], t.next) && SlotBelow(t.stack[n - 1], t.next);
    StackTake(Now(s0, t), t.stack, m.stack, n - 2);
    BelowTake(t.stack, t.next, n - 2);
  }

  lemma BelowTake(xs: seq<Slot>, n: nat, k: nat)
    requires AllBelow(xs, n) && k <= |xs|
    ensures AllBelow(xs[..k], n)
  {
    forall i | 0 <= i < k
      ensures SlotBelow(xs[..k][i], n)
    {
      assert SlotBelow(xs[i], n);
    }
  }

  lemma TopOne(m: Machine, s0: State, t: Trans)
    requires Agree(m, s0, t) && Wf(t) && |m.stack| >= 1
    ensures var n := |m.stack|;
            && |t.stack| == n && t.stack == t.stack[..n - 1] + [t.stack[n - 1]]
            && m.stack == m.stack[..n - 1] + [m.stack[n - 1]]
            && StackAgrees(Now(s0, t), t.stack[..n - 1], m.stack[..n - 1]) && AllBelow(t.stack[..n - 1], t.next)
            && SlotAgrees(Now(s0, t), t.stack[n - 1], m.stack[n - 1]) && SlotBelow(t.stack[n - 1], t.next)
  {
    hide Now;
    var n := |m.stack|;
    assert |t.stack| == n;
    assert SlotAgrees(Now(s0, t), t.stack[n - 1], m.stack[n - 1]) && SlotBelow(t.stack[n - 1], t.next);
    StackTake(Now(s0, t), t.stack, m.stack, n - 1);
    BelowTake(t.stack, t.next, n - 1);
  }

  // ----- words that push a result -----

  /** A result computed into a temporary agrees with the number that ESIL pushes exactly
      when truncation leaves it alone. */
  lemma PushAgrees(m: Machine, s0: State, t: Trans, rest: seq<Slot>, es: seq<Entry>, op: Opcode,
                   a0: Arg, a1: Arg, size: nat, u: Trans, v: Word)
    requires op != Jump && t.sizes == m.sizes && t.limit == m.limit && Now(s0, t).regs == m.regs
    requires StackAgrees(Now(s0, t), rest, es) && AllBelow(rest, t.next)
    requires var c := Computed(t, rest, op, a0, a1, size);
             u.code == c.code && u.stack == c.stack && u.sizes == c.sizes && u.limit == c.limit
    requires v == Compute(op, Read(Now(s0, t), a0), Read(Now(s0, t), a1))
    ensures Agree(m.(stack := es + [Num(v)]), s0, u) <==> Truncate(v, size) == v
  {
    hide Exec, Compute, Read;
    var s := Now(s0, t);
    ComputedEffect(s0, t, rest, op, a0, a1, size);
    StackKept(s, Now(s0, u), rest, es, t.next);
    StackGrows(Now(s0, u), rest, es, Sized(TempArg(t.next, size)), Num(v));
    assert TempAt(Now(s0, u), t.next) == Truncate(v, size);
  }

  lemma TruncateIff(v: Word, n: nat)
    ensures Truncate(v, n) == v <==> v < Pow2(n)
  {
    if v < Pow2(n) {
      TruncateFits(v, n);
    }
  }

  // ----- which words, and when they agree -----

  /** A register that an assignment may name. */
  predicate Target(m: Machine, pc: string, e: Entry)
  {
    e.Reg? && e.name in m.regs && e.name != pc
  }

  /** C defines the operation on this second operand. */
  predicate Defined(b: BinOp, s: Word)
  {
    match b
    case OpMod => false
    case OpDiv => s != 0
    case OpShl => s < 64
    case OpShr => s < 64
    case _ => true
  }

  predicate Room(m: Machine)
  {
    |m.stack| < m.limit
  }

  function FromTop(m: Machine, k: nat): Entry
    requires 1 <= k <= |m.stack|
  {
    m.stack[|m.stack| - k]
  }

  /** The words considered: operands are numbers and registers, destinations are
      registers other than the program counter, and the translation of the one-operand
      words finds a spare stack slot. */
  predicate Allowed(m: Machine, pc: string, op: Op)
  {
    match op
    case Binary(b) => |m.stack| >= 2 && IsOperand(m, FromTop(m, 1)) && IsOperand(m, FromTop(m, 2)) && Defined(b, ValueOf(m, FromTop(m, 2)))
    case Update(b) => |m.stack| >= 2 && Target(m, pc, FromTop(m, 1)) && IsOperand(m, FromTop(m, 2)) && Defined(b, ValueOf(m, FromTop(m, 2)))
    case Inc => |m.stack| >= 1 && IsOperand(m, FromTop(m, 1)) && Room(m)
    case Dec => |m.stack| >= 1 && IsOperand(m, FromTop(m, 1)) && Room(m)
    case IncEq => |m.stack| >= 1 && Target(m, pc, FromTop(m, 1)) && Room(m)
    case DecEq => |m.stack| >= 1 && Target(m, pc, FromTop(m, 1)) && Room(m)
    case Not => |m.stack| >= 1 && IsOperand(m, FromTop(m, 1))
    case NotEq => |m.stack| >= 1 && Target(m, pc, FromTop(m, 1)) && Room(m)
    case Assign => |m.stack| >= 2 && Target(m, pc, FromTop(m, 1)) && IsOperand(m, FromTop(m, 2))
    case Compare => |m.stack| >= 2 && IsOperand(m, FromTop(m, 1)) && IsOperand(m, FromTop(m, 2))
    case Clear => true
    case Drop => true
    case Dup => |m.stack| >= 1 && Room(m)
    case Swap => |m.stack| >= 2
    case _ => false
  }

  /** ESIL writes whether a value is zero to one-bit registers, REIL its low bit. */
  predicate Keeps(v: Word, size: nat)
  {
    size > 1 || v == 0 || v % 2 == 1
  }

  function WidthOf(t: Trans, k: nat): nat
    requires 1 <= k <= |t.stack|
  {
    Resolve(t.sizes, t.stack[|t.stack| - k]).size
  }

  function MaxWidth(t: Trans): nat
    requires |t.stack| >= 2
  {
    if WidthOf(t, 1) < WidthOf(t, 2) then WidthOf(t, 2) else WidthOf(t, 1)
  }

  /** The result survives the sizes that REIL works with. */
  predicate Fits(m: Machine, t: Trans, op: Op)
    requires Allowed(m, t.pc, op) && |t.stack| == |m.stack| && m.sizes.Keys == m.regs.Keys
  {
    match op
    case Binary(b) => Apply(b, ValueOf(m, FromTop(m, 1)), ValueOf(m, FromTop(m, 2))) < Pow2(MaxWidth(t))
    case Update(b) => Keeps(Apply(b, ValueOf(m, FromTop(m, 1)), ValueOf(m, FromTop(m, 2))), m.sizes[FromTop(m, 1).name])
    case IncEq => Keeps(Add(ValueOf(m, FromTop(m, 1)), 1), m.sizes[FromTop(m, 1).name])
    case DecEq => Keeps(Sub(ValueOf(m, FromTop(m, 1)), 1), m.sizes[FromTop(m, 1).name])
    case Assign => Keeps(ValueOf(m, FromTop(m, 2)), m.sizes[FromTop(m, 1).name])
    case _ => true
  }

  lemma FitIff(v: Word, size: nat)
    requires 1 <= size <= 64
    ensures Fit(v, size) == Truncate(v, size) <==> Keeps(v, size)
  {
    if size == 1 {
      assert Pow2(1) == 2;
    }
  }

  /** Truncating first to a wider size makes no difference. */
  lemma TruncateWider(v: Word, n: nat, w: nat)
    requires n <= w
    ensures Truncate(Truncate(v, w), n) == Truncate(v, n)
  {
    Pow2Sum(n, w - n);
    ReduceTwice(v, Pow2(n), Pow2(w - n));
  }

  /** A register assignment agrees exactly when both sides store the same value. */
  lemma StoreAgrees(m: Machine, s0: State, t: Trans, rest: seq<Slot>, o: Machine, u: Trans, name: string, v: Word, w: Word)
    requires t.sizes == m.sizes && t.limit == m.limit && Now(s0, t).regs == m.regs
    requires StackAgrees(Now(s0, t), rest, o.stack) && AllBelow(rest, t.next)
    requires Extends(s0, t.(stack := rest), u)
    requires o.sizes == m.sizes && o.limit == m.limit && o.regs == m.regs[name := v]
    requires Now(s0, u).regs == m.regs[name := w]
    ensures Agree(o, s0, u) <==> v == w
  {
    hide Exec;
    StackKept(Now(s0, t), Now(s0, u), rest, o.stack, t.next);
    if v != w {
      assert o.regs[name] != Now(s0, u).regs[name];
    }
  }

  // ----- word by word -----

  lemma BinaryAgrees(m: Machine, s0: State, t: Trans, b: BinOp)
    requires Valid(m) && Wf(t) && Agree(m, s0, t) && Allowed(m, t.pc, Binary(b))
    ensures var o, r := RunBinary(m, b), BinaryOp(t, Arith(b));
            o.ok && r.ok && (Agree(o.m, s0, r.t) <==> Fits(m, t, Binary(b)))
  {
    hide Exec, Apply, AllBelow, StackAgrees, BinaryOp, RunBinary;
    var n := |m.stack|;
    TopTwo(m, s0, t);
    var es, rest := m.stack[..n - 2], t.stack[..n - 2];
    var e1, e2, x1, x2 := m.stack[n - 2], m.stack[n - 1], t.stack[n - 2], t.stack[n - 1];
    SlotValue(m, Now(s0, t), t, x1, e1);
    SlotValue(m, Now(s0, t), t, x2, e2);
    var v := Apply(b, ValueOf(m, e2), ValueOf(m, e1));
    BinaryComputes(t, rest, x1, x2, Arith(b));
    EsilBinary(m, es, e1, e2, b);
    var a0, a1 := Resolve(t.sizes, x2), Resolve(t.sizes, x1);
    PushAgrees(m, s0, t, rest, es, Arith(b), a0, a1, Wider(a0, a1), BinaryOp(t, Arith(b)).t, v);
    TruncateIff(v, Wider(a0, a1));
  }

  lemma EsilBinary(m: Machine, es: seq<Entry>, e1: Entry, e2: Entry, b: BinOp)
    requires Valid(m) && m.stack == es + [e1, e2] && IsOperand(m, e1) && IsOperand(m, e2) && Defined(b, ValueOf(m, e1))
    ensures RunBinary(m, b) == Outcome(true, m.(stack := es + [Num(Apply(b, ValueOf(m, e2), ValueOf(m, e1)))]))
  {
    hide Apply, ReadFlag;
    assert m.stack[..|m.stack| - 1] == es + [e1];
    assert Pop(m) == m.(stack := es + [e1]) && Pop(Pop(m)) == m.(stack := es);
  }

  lemma StepAgrees(m: Machine, s0: State, t: Trans, b: BinOp)
    requires Valid(m) && Wf(t) && Agree(m, s0, t) && (b == OpAdd || b == OpSub)
    requires |m.stack| >= 1 && IsOperand(m, FromTop(m, 1)) && Room(m)
    ensures var o, r := RunStep(m, b), StepOp(t, b); o.ok && r.ok && Agree(o.m, s0, r.t)
  {
    hide Exec, Apply, AllBelow, StackAgrees, StepOp, RunStep;
    var n := |m.stack|;
    TopOne(m, s0, t);
    var es, rest, e, x := m.stack[..n - 1], t.stack[..n - 1], m.stack[n - 1], t.stack[n - 1];
    SlotValue(m, Now(s0, t), t, x, e);
    var v := Apply(b, ValueOf(m, e), 1);
    StepComputes(t, rest, x, b);
    EsilStep(m, es, e, b);
    var a, one := Resolve(t.sizes, x), ConstArg(1, 64);
    PushAgrees(m, s0, t, rest, es, Arith(b), a, one, Wider(a, one), StepOp(t, b).t, v);
    Pow2Is64();
    Pow2Monotone(64, Wider(a, one));
    TruncateIff(v, Wider(a, one));
  }

  lemma EsilStep(m: Machine, es: seq<Entry>, e: Entry, b: BinOp)
    requires Valid(m) && m.stack == es + [e] && IsOperand(m, e) && (b == OpAdd || b == OpSub)
    ensures RunStep(m, b) == Outcome(true, m.(stack := es + [Num(Apply(b, ValueOf(m, e), 1))]))
  {
    hide Apply;
    assert Pop(m).stack == es;
  }

  lemma TruncateBit(v: Word)
    requires v <= 1
    ensures Truncate(v, 1) == v
  {
    assert Pow2(1) == 2;
    TruncateFits(v, 1);
  }

  lemma NotAgrees(m: Machine, s0: State, t: Trans)
    requires Valid(m) && Wf(t) && Agree(m, s0, t)
    requires |m.stack| >= 1 && IsOperand(m, FromTop(m, 1))
    ensures var o, r := RunNot(m), NotOp(t); o.ok && r.ok && Agree(o.m, s0, r.t)
  {
    hide Exec, AllBelow, StackAgrees, NotOp, RunNot, Computed, Now, SlotBelow, SlotAgrees;
    var n := |m.stack|;
    TopOne(m, s0, t);
    var es, rest, e, x := m.stack[..n - 1], t.stack[..n - 1], m.stack[n - 1], t.stack[n - 1];
    SlotValue(m, Now(s0, t), t, x, e);
    NotComputes(t, rest, x);
    EsilNot(m, es, e);
    var a := Resolve(t.sizes, x);
    PushAgrees(m, s0, t, rest, es, Equal, a, ConstArg(0, if a.size < 64 then a.size else 64), 1, NotOp(t).t, IsZero(ValueOf(m, e)));
    TruncateBit(IsZero(ValueOf(m, e)));
  }

  lemma EsilNot(m: Machine, es: seq<Entry>, e: Entry)
    requires Valid(m) && m.stack == es + [e] && IsOperand(m, e)
    ensures RunNot(m) == Outcome(true, m.(stack := es + [Num(IsZero(ValueOf(m, e)))]))
  {
    assert Pop(m).stack == es;
  }

  function IsEqual(x: Word, y: Word): Word
  {
    if x == y then 1 else 0
  }

  lemma CompareAgrees(m: Machine, s0: State, t: Trans)
    requires Valid(m) && Wf(t) && Agree(m, s0, t) && Allowed(m, t.pc, Compare)
    ensures var o, r := RunCompare(m), CompareOp(t); o.ok && r.ok && Agree(o.m, s0, r.t)
  {
    hide Exec, AllBelow, StackAgrees, CompareOp, RunCompare;
    var n := |m.stack|;
    TopTwo(m, s0, t);
    var es, rest := m.stack[..n - 2], t.stack[..n - 2];
    var e1, e2, x1, x2 := m.stack[n - 2], m.stack[n - 1], t.stack[n - 2], t.stack[n - 1];
    SlotValue(m, Now(s0, t), t, x1, e1);
    SlotValue(m, Now(s0, t), t, x2, e2);
    CompareComputes(t, rest, x1, x2);
    EsilCompare(m, es, e1, e2);
    var v := IsEqual(ValueOf(m, e2), ValueOf(m, e1));
    PushAgrees(m, s0, t, rest, es, Equal, Resolve(t.sizes, x2), Resolve(t.sizes, x1), 1, CompareOp(t).t, v);
    TruncateBit(v);
    AgreeIgnoresFlags(m.(stack := es + [Num(v)]), RunCompare(m).m, s0, CompareOp(t).t);
  }

  lemma AgreeIgnoresFlags(m: Machine, o: Machine, s0: State, t: Trans)
    requires o.sizes == m.sizes && o.regs == m.regs && o.stack == m.stack && o.limit == m.limit
    ensures Agree(m, s0, t) == Agree(o, s0, t)
  {
  }

  lemma EsilCompare(m: Machine, es: seq<Entry>, e1: Entry, e2: Entry)
    requires Valid(m) && m.stack == es + [e1, e2] && IsOperand(m, e1) && IsOperand(m, e2)
    ensures var o := RunCompare(m);
            && o.ok && o.m.sizes == m.sizes && o.m.regs == m.regs && o.m.limit == m.limit
            && o.m.stack == es + [Num(IsEqual(ValueOf(m, e2), ValueOf(m, e1)))]
  {
    assert m.stack[..|m.stack| - 1] == es + [e1];
    assert Pop(Pop(m)).stack == es;
  }

  // ----- words that assign -----

  /** The internal flags can be recomputed: the translator's flag registers name the
      machine's last destination, which has not been overwritten since. */
  predicate FlagsKnown(m: Machine, s0: State, t: Trans, name: string)
  {
    && name in m.sizes && name in m.regs
    && t.cur == Sized(RegArg(name, m.sizes[name])) && t.lastsz == m.sizes[name] && m.lastsz == t.lastsz
    && t.prior.Sized? && t.prior.a.TempArg? && t.prior.a.size == t.lastsz && t.prior.a.id < t.next
    && TempAt(Now(s0, t), t.prior.a.id) == m.prev
    && m.regs[name] == Truncate(m.cur, m.sizes[name])
  }

  /** What an assignment of v to a register leaves in the machine. */
  predicate Assigned(m: Machine, o: Machine, es: seq<Entry>, e: Entry, v: Word)
    requires e.Reg? && e.name in m.regs && Valid(m)
  {
    && o.sizes == m.sizes && o.limit == m.limit && o.stack == es
    && o.regs == m.regs[e.name := Fit(v, m.sizes[e.name])]
    && o.prev == m.regs[e.name] && o.cur == v && o.lastsz == m.sizes[e.name]
  }

  lemma AssignedAgrees(m: Machine, s0: State, t: Trans, rest: seq<Slot>, es: seq<Entry>, e: Entry, o: Machine, u: Trans, v: Word)
    requires Valid(m) && t.sizes == m.sizes && t.limit == m.limit && Now(s0, t).regs == m.regs
    requires StackAgrees(Now(s0, t), rest, es) && AllBelow(rest, t.next)
    requires e.Reg? && e.name in m.regs && Assigned(m, o, es, e, v)
    requires Extends(s0, t.(stack := rest), u) && Now(s0, u).regs == m.regs[e.name := Truncate(v, m.sizes[e.name])]
    requires Saved(s0, u, RegArg(e.name, m.sizes[e.name]), m.regs[e.name])
    ensures Agree(o, s0, u) <==> Keeps(v, m.sizes[e.name])
    ensures Keeps(v, m.sizes[e.name]) ==> FlagsKnown(o, s0, u, e.name)
  {
    hide Exec, Fit, Truncate;
    StoreAgrees(m, s0, t, rest, o, u, e.name, Fit(v, m.sizes[e.name]), Truncate(v, m.sizes[e.name]));
    FitIff(v, m.sizes[e.name]);
  }

  lemma UpdateAgrees(m: Machine, s0: State, t: Trans, b: BinOp)
    requires Valid(m) && Wf(t) && Agree(m, s0, t) && Allowed(m, t.pc, Update(b))
    ensures var o, r := RunUpdate(m, b), UpdateOp(t, b);
            && o.ok && r.ok && (Agree(o.m, s0, r.t) <==> Fits(m, t, Update(b)))
            && (Fits(m, t, Update(b)) ==> FlagsKnown(o.m, s0, r.t, FromTop(m, 1).name))
  {
    hide Exec, Apply, AllBelow, StackAgrees, UpdateOp, RunUpdate, Truncate, Extends, Saved, Keeps, FlagsKnown, Fit;
    var n := |m.stack|;
    TopTwo(m, s0, t);
    var es, rest := m.stack[..n - 2], t.stack[..n - 2];
    var e1, e2, x1, x2 := m.stack[n - 2], m.stack[n - 1], t.stack[n - 2], t.stack[n - 1];
    SlotValue(m, Now(s0, t), t, x1, e1);
    SlotValue(m, Now(s0, t), t, x2, e2);
    UpdateReplaces(m, s0, t, rest, e1, e2, x1, x2, b);
    EsilUpdate(m, es, e1, e2, b);
    AssignedAgrees(m, s0, t, rest, es, e2, RunUpdate(m, b).m, UpdateOp(t, b).t, Apply(b, ValueOf(m, e2), ValueOf(m, e1)));
  }

  /** However wide the temporary was, the register gets the result's low bits. */
  lemma UpdateReplaces(m: Machine, s0: State, t: Trans, rest: seq<Slot>, e1: Entry, e2: Entry, x1: Slot, x2: Slot, b: BinOp)
    requires Valid(m) && Wf(t) && Agree(m, s0, t) && t.stack == rest + [x1, x2]
    requires SlotAgrees(Now(s0, t), x1, e1) && SlotBelow(x1, t.next) && IsOperand(m, e1) && Defined(b, ValueOf(m, e1))
    requires SlotAgrees(Now(s0, t), x2, e2) && SlotBelow(x2, t.next) && Target(m, t.pc, e2)
    ensures var r, size, v := UpdateOp(t, b), m.sizes[e2.name], Apply(b, ValueOf(m, e2), ValueOf(m, e1));
            && r.ok && Extends(s0, t.(stack := rest), r.t)
            && Now(s0, r.t).regs == m.regs[e2.name := Truncate(v, size)]
            && Saved(s0, r.t, RegArg(e2.name, size), m.regs[e2.name])
  {
    hide Exec, Apply, AllBelow, StackAgrees, UpdateOp, Truncate, Extends, Saved;
    SlotValue(m, Now(s0, t), t, x1, e1);
    SlotValue(m, Now(s0, t), t, x2, e2);
    UpdateStores(s0, t, rest, x1, x2, b);
    TruncateWider(Apply(b, ValueOf(m, e2), ValueOf(m, e1)), m.sizes[e2.name], Wider(Resolve(t.sizes, x2), Resolve(t.sizes, x1)));
  }

  lemma EsilUpdate(m: Machine, es: seq<Entry>, e1: Entry, e2: Entry, b: BinOp)
    requires Valid(m) && m.stack == es + [e1, e2] && IsOperand(m, e1) && e2.Reg? && e2.name in m.regs && Defined(b, ValueOf(m, e1))
    ensures var o := RunUpdate(m, b);
            o.ok && Assigned(m, o.m, es, e2, Apply(b, ValueOf(m, e2), ValueOf(m, e1)))
  {
    hide Apply, Fit, Valid;
    assert m.stack[..|m.stack| - 1] == es + [e1];
    var m2, v := Pop(Pop(m)), Apply(b, ValueOf(m, e2), ValueOf(m, e1));
    assert m2 == m.(stack := es) && Top(m) == Some(e2) && Top(Pop(m)) == Some(e1);
    assert RunUpdate(m, b).m == WriteReg(Track(m2, m.regs[e2.name], v, SizeOf(m2, e2)), e2, v).m;
    assert SizeOf(m2, e2) == m.sizes[e2.name] by {
      KnownSize(m, e2);
    }
  }

  lemma KnownSize(m: Machine, e: Entry)
    requires Valid(m) && e.Reg? && e.name in m.regs
    ensures e.name in m.sizes && 1 <= m.sizes[e.name] <= 64
  {
  }

  lemma StepAssignAgrees(m: Machine, s0: State, t: Trans, b: BinOp)
    requires Valid(m) && Wf(t) && Agree(m, s0, t) && (b == OpAdd || b == OpSub)
    requires |m.stack| >= 1 && Target(m, t.pc, FromTop(m, 1)) && Room(m)
    ensures var o, r, e := RunStepEq(m, b), StepAssignOp(t, b), FromTop(m, 1);
            var fits := Keeps(Apply(b, ValueOf(m, e), 1), m.sizes[e.name]);
            && o.ok && r.ok && (Agree(o.m, s0, r.t) <==> fits)
            && (fits ==> FlagsKnown(o.m, s0, r.t, e.name))
  {
    hide Exec, Apply, AllBelow, StackAgrees, StepAssignOp, RunStepEq, Truncate, Extends, Saved, Keeps, FlagsKnown;
    var n := |m.stack|;
    TopOne(m, s0, t);
    var es, rest, e, x := m.stack[..n - 1], t.stack[..n - 1], m.stack[n - 1], t.stack[n - 1];
    SlotValue(m, Now(s0, t), t, x, e);
    var v, size := Apply(b, ValueOf(m, e), 1), m.sizes[e.name];
    StepAssignStores(s0, t, rest, x, b);
    EsilStepEq(m, es, e, b);
    TruncateWider(v, size, Wider(Resolve(t.sizes, x), ConstArg(1, 64)));
    AssignedAgrees(m, s0, t, rest, es, e, RunStepEq(m, b).m, StepAssignOp(t, b).t, v);
  }

  lemma EsilStepEq(m: Machine, es: seq<Entry>, e: Entry, b: BinOp)
    requires Valid(m) && m.stack == es + [e] && e.Reg? && e.name in m.regs && (b == OpAdd || b == OpSub)
    ensures var o := RunStepEq(m, b);
            o.ok && Assigned(m, o.m, es, e, Apply(b, ValueOf(m, e), 1))
  {
    hide Apply, Fit;
    assert Pop(m).stack == es;
  }

  lemma AssignAgrees(m: Machine, s0: State, t: Trans)
    requires Valid(m) && Wf(t) && Agree(m, s0, t) && Allowed(m, t.pc, Assign)
    ensures var o, r := RunAssign(m), AssignOp(t);
            && o.ok && r.ok && (Agree(o.m, s0, r.t) <==> Fits(m, t, Assign))
            && (Fits(m, t, Assign) ==> FlagsKnown(o.m, s0, r.t, FromTop(m, 1).name))
  {
    hide Exec, AllBelow, StackAgrees, AssignOp, RunAssign, Truncate, Extends, Saved, Keeps, FlagsKnown;
    var n := |m.stack|;
    TopTwo(m, s0, t);
    var es, rest := m.stack[..n - 2], t.stack[..n - 2];
    var e1, e2, x1, x2 := m.stack[n - 2], m.stack[n - 1], t.stack[n - 2], t.stack[n - 1];
    SlotValue(m, Now(s0, t), t, x1, e1);
    SlotValue(m, Now(s0, t), t, x2, e2);
    AssignStores(s0, t, rest, x1, x2);
    EsilAssign(m, es, e1, e2);
    AssignedAgrees(m, s0, t, rest, es, e2, RunAssign(m).m, AssignOp(t).t, ValueOf(m, e1));
  }

  lemma EsilAssign(m: Machine, es: seq<Entry>, e1: Entry, e2: Entry)
    requires Valid(m) && m.stack == es + [e1, e2] && IsOperand(m, e1) && e2.Reg? && e2.name in m.regs
    ensures var o := RunAssign(m); o.ok && Assigned(m, o.m, es, e2, ValueOf(m, e1))
  {
    hide Fit, ReadFlag;
    assert m.stack[..|m.stack| - 1] == es + [e1];
    assert Pop(Pop(m)).stack == es;
  }

  lemma NotAssignAgrees(m: Machine, s0: State, t: Trans)
    requires Valid(m) && Wf(t) && Agree(m, s0, t)
    requires |m.stack| >= 1 && Target(m, t.pc, FromTop(m, 1)) && Room(m)
    ensures var o, r := RunNotEq(m), NotAssignOp(t); o.ok && r.ok && Agree(o.m, s0, r.t)
  {
    hide Exec, AllBelow, StackAgrees, NotAssignOp, RunNotEq, Extends, Fit, Truncate;
    var n := |m.stack|;
    TopOne(m, s0, t);
    var es, rest, e, x := m.stack[..n - 1], t.stack[..n - 1], m.stack[n - 1], t.stack[n - 1];
    SlotValue(m, Now(s0, t), t, x, e);
    var z, size := IsZero(ValueOf(m, e)), m.sizes[e.name];
    NotAssignStores(s0, t, rest, x);
    EsilNotEq(m, es, e);
    TruncateBit(z);
    FitIff(z, size);
    StoreAgrees(m, s0, t, rest, RunNotEq(m).m, NotAssignOp(t).t, e.name, Fit(z, size), Truncate(z, size));
  }

  lemma EsilNotEq(m: Machine, es: seq<Entry>, e: Entry)
    requires Valid(m) && m.stack == es + [e] && e.Reg? && e.name in m.regs
    ensures RunNotEq(m) == Outcome(true, m.(stack := es, regs := m.regs[e.name := Fit(IsZero(ValueOf(m, e)), m.sizes[e.name])]))
  {
    hide Fit;
    assert Pop(m).stack == es;
  }
}
